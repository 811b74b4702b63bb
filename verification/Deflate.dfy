// A bit-at-a-time reading of the DEFLATE format (section 3.2 of RFC 1951), with the
// ways a stream can be refused.  It knows nothing of bit buffers, tables or windows.
module Deflate {
  import opened Bits
  import opened Canonical

  // Tables of section 3.2.5 and 3.2.7; 99 marks a length code that is not used.
  function LenBase(): (r: seq<nat>)
    ensures |r| == 31
  {
    [3, 4, 5, 6, 7, 8, 9, 10, 11, 13, 15, 17, 19, 23, 27, 31, 35, 43, 51, 59, 67, 83, 99, 115, 131, 163,
    195, 227, 258, 0, 0]
  }

  function LenExtra(): (r: seq<nat>)
    ensures |r| == 31
  {
    [0, 0, 0, 0, 0, 0, 0, 0, 1, 1, 1, 1, 2, 2, 2, 2, 3, 3, 3, 3, 4, 4, 4, 4, 5, 5, 5, 5, 0, 99, 99]
  }

  function DistBase(): (r: seq<nat>)
    ensures |r| == 30
  {
    [1, 2, 3, 4, 5, 7, 9, 13, 17, 25, 33, 49, 65, 97, 129, 193, 257, 385, 513, 769, 1025, 1537, 2049,
    3073, 4097, 6145, 8193, 12289, 16385, 24577]
  }

  function DistExtra(): (r: seq<nat>)
    ensures |r| == 30
  {
    [0, 0, 0, 0, 1, 1, 2, 2, 3, 3, 4, 4, 5, 5, 6, 6, 7, 7, 8, 8, 9, 9, 10, 10, 11, 11, 12, 12, 13, 13]
  }

  function Border(): (r: seq<nat>)
    ensures |r| == 19
  {
    [16, 17, 18, 0, 8, 7, 9, 6, 10, 5, 11, 4, 12, 3, 13, 2, 14, 1, 15]
  }

  // Done: decoded up to bit pos.  BadTables: a set of code lengths is refused with the
  // code of huft_build.  BadData: some other check fails.  In all three out is the output
  // so far.  OffSpec: the stream ends early, starts with no code, or refers back before its
  // beginning; the decoder of loader/src/inflate.c does not look for these.
  datatype Outcome =
    | Done(pos: nat, out: seq<byte>)
    | BadTables(code: nat, out: seq<byte>)
    | BadData(code: nat, out: seq<byte>)
    | OffSpec

  // n bits as a number, least significant bit first.
  function Field(bits: seq<bool>, pos: nat, n: nat): nat
    requires pos + n <= |bits|
  {
    Num(bits[pos..pos + n])
  }

  // A back-reference copied byte by byte: the copy may overlap what it produces.
  function LzCopy(out: seq<byte>, n: nat, dist: nat): (r: seq<byte>)
    requires 1 <= dist <= |out|
    ensures |r| == |out| + n
    decreases n
  {
    if n == 0 then out else LzCopy(out + [out[|out| - dist]], n - 1, dist)
  }

  lemma {:induction false} LzCopyPrefix(out: seq<byte>, n: nat, dist: nat)
    requires 1 <= dist <= |out|
    ensures LzCopy(out, n, dist)[..|out|] == out
    decreases n
  {
    if n > 0 {
      var out' := out + [out[|out| - dist]];
      LzCopyPrefix(out', n - 1, dist);
      assert LzCopy(out, n, dist)[..|out|] == LzCopy(out', n - 1, dist)[..|out'|][..|out|];
    }
  }

  // What one code of a block comes to.
  datatype Step = Next(pos: nat, out: seq<byte>) | End(outcome: Outcome)

  // Section 3.2.3: a literal, a match or the end-of-block code.
  function CodeStep(lit: seq<nat>, dist: seq<nat>, bits: seq<bool>, pos: nat, out: seq<byte>): (s: Step)
    ensures s.Next? ==> pos < s.pos <= |bits| && |out| <= |s.out|
    ensures s.End? ==> Ending(s.outcome, out) && (s.outcome.Done? ==> pos < s.outcome.pos <= |bits|)
  {
    match Decode(lit, bits, pos)
    case None => End(OffSpec)
    case Some(Decoded(sym, len)) =>
      if sym < 256 then Next(pos + len, out + [sym])
      else if sym == 256 then End(Done(pos + len, out))
      else MatchStep(dist, bits, pos + len, sym - 257, out)
  }

  predicate Ending(r: Outcome, out: seq<byte>)
  {
    r == OffSpec || ((r.Done? || (r.BadData? && r.code == 1)) && r.out == out)
  }

  // A match whose length code has been read.
  function MatchStep(dist: seq<nat>, bits: seq<bool>, pos: nat, lc: nat, out: seq<byte>): (s: Step)
    requires pos <= |bits|
    ensures s.Next? ==> pos < s.pos <= |bits| && |out| <= |s.out|
    ensures s.End? ==> Ending(s.outcome, out) && !s.outcome.Done?
  {
    if lc >= 29 then End(BadData(1, out))
    else if pos + LenExtra()[lc] > |bits| then End(OffSpec)
    else DistanceStep(dist, bits, pos + LenExtra()[lc], LenBase()[lc] + Field(bits, pos, LenExtra()[lc]), out)
  }

  // A match whose length n is known.
  function DistanceStep(dist: seq<nat>, bits: seq<bool>, pos: nat, n: nat, out: seq<byte>): (s: Step)
    requires pos <= |bits|
    ensures s.Next? ==> pos < s.pos <= |bits| && |out| <= |s.out|
    ensures s.End? ==> Ending(s.outcome, out) && !s.outcome.Done?
  {
    match Decode(dist, bits, pos)
    case None => End(OffSpec)
    case Some(Decoded(ds, dl)) =>
      if ds >= 30 then End(BadData(1, out))
      else if pos + dl + DistExtra()[ds] > |bits| then End(OffSpec)
      else
        var d := DistBase()[ds] + Field(bits, pos + dl, DistExtra()[ds]);
        if !(1 <= d <= |out|) then End(OffSpec)
        else Next(pos + dl + DistExtra()[ds], LzCopy(out, n, d))
  }

  // Codes up to the end-of-block code.
  function Codes(lit: seq<nat>, dist: seq<nat>, bits: seq<bool>, pos: nat, out: seq<byte>): (r: Outcome)
    ensures r != OffSpec ==> |out| <= |r.out|
    ensures r.Done? ==> pos < r.pos <= |bits|
    ensures r.Done? || (r.BadData? && r.code == 1) || r == OffSpec
    decreases |bits| - pos
  {
    match CodeStep(lit, dist, bits, pos, out)
    case Next(p, o) => Codes(lit, dist, bits, p, o)
    case End(r) => r
  }

  function ByteAlign(pos: nat): nat { (pos + 7) / 8 * 8 }

  // n bytes from the stream.
  function Bytes(bits: seq<bool>, pos: nat, n: nat): (r: seq<byte>)
    requires pos + 8 * n <= |bits|
    ensures |r| == n
    decreases n
  {
    if n == 0 then []
    else
      NumBound(bits[pos + 8 * (n - 1)..pos + 8 * n]);
      SmallPowers();
      Bytes(bits, pos, n - 1) + [Num(bits[pos + 8 * (n - 1)..pos + 8 * n])]
  }

  // Section 3.2.4.
  function Stored(bits: seq<bool>, pos: nat, out: seq<byte>): (r: Outcome)
    ensures r.Done? || (r.BadData? && r.code == 1) || r == OffSpec
    ensures r != OffSpec ==> |out| <= |r.out|
    ensures r.Done? ==> pos < r.pos <= |bits|
  {
    var p := ByteAlign(pos);
    if p + 32 > |bits| then OffSpec
    else
      var n := Field(bits, p, 16);
      if n + Field(bits, p + 16, 16) != 65535 then BadData(1, out)
      else if p + 32 + 8 * n > |bits| then OffSpec
      else Done(p + 32 + 8 * n, out + Bytes(bits, p + 32, n))
  }

  // Section 3.2.6.
  function FixedLit(): seq<nat>
  {
    seq(288, i => if i < 144 then 8 else if i < 256 then 9 else if i < 280 then 7 else 8)
  }

  function FixedDist(): seq<nat> { seq(32, i => 5) }

  // Section 3.2.7: the lengths of the code length code, in the order of Border().
  function ClLens(bits: seq<bool>, pos: nat, nb: nat): (r: seq<nat>)
    requires nb <= 19 && pos + 3 * nb <= |bits|
    ensures |r| == 19
    decreases nb
  {
    if nb == 0 then seq(19, i => 0)
    else ClLens(bits, pos, nb - 1)[Border()[nb - 1] := Field(bits, pos + 3 * (nb - 1), 3)]
  }

  datatype Lens = Lens(pos: nat, lens: seq<nat>) | LensBad | LensOff

  function Repeat(x: nat, n: nat): (r: seq<nat>)
    ensures |r| == n
  {
    seq(n, i => x)
  }

  // The run of equal lengths a code length symbol stands for: value, base count, extra bits.
  function RunBase(sym: nat): nat { if sym == 18 then 11 else 3 }
  function RunExtra(sym: nat): nat { if sym == 16 then 2 else if sym == 17 then 3 else 7 }
  function RunValue(sym: nat, acc: seq<nat>): nat { if sym == 16 && acc != [] then acc[|acc| - 1] else 0 }

  // Literal/length and distance code lengths, total of them.
  function ReadLens(cl: seq<nat>, bits: seq<bool>, pos: nat, total: nat, acc: seq<nat>): (r: Lens)
    requires |acc| <= total && pos <= |bits|
    ensures r.Lens? ==> pos <= r.pos <= |bits| && |r.lens| == total
    decreases total - |acc|
  {
    if |acc| == total then Lens(pos, acc)
    else
      match Decode(cl, bits, pos)
      case None => LensOff
      case Some(Decoded(sym, len)) =>
        if sym < 16 then ReadLens(cl, bits, pos + len, total, acc + [sym])
        else if pos + len + RunExtra(sym) > |bits| then LensOff
        else
          var n := RunBase(sym) + Field(bits, pos + len, RunExtra(sym));
          if |acc| + n > total then LensBad
          else ReadLens(cl, bits, pos + len + RunExtra(sym), total, acc + Repeat(RunValue(sym, acc), n))
  }

  lemma FourBits(bits: seq<bool>, pos: nat)
    requires pos + 4 <= |bits|
    ensures Field(bits, pos, 4) < 16
  {
    FieldBound(bits, pos, 4);
    SmallPowers();
  }

  // What the lengths at the start of a dynamic block come to.
  datatype Setup =
    | Ready(lit: seq<nat>, dist: seq<nat>, pos: nat)
    | BadSizes
    | BadSet(code: nat)
    | BadLens
    | CutShort

  function SetUp(bits: seq<bool>, pos: nat): (s: Setup)
    ensures s.BadSet? ==> 1 <= s.code <= 2
    ensures s.Ready? ==> pos < s.pos <= |bits|
  {
    if pos + 14 > |bits| then CutShort
    else
      FourBits(bits, pos + 10);
      WithSizes(257 + Field(bits, pos, 5), 1 + Field(bits, pos + 5, 5), 4 + Field(bits, pos + 10, 4), bits, pos + 14)
  }

  // The rest once it is known how many lengths there are.
  function WithSizes(nl: nat, nd: nat, nb: nat, bits: seq<bool>, pos: nat): (s: Setup)
    requires nb <= 19 && pos <= |bits|
    ensures s.BadSet? ==> 1 <= s.code <= 2
    ensures s.Ready? ==> pos <= s.pos <= |bits|
  {
    if nl > 286 || nd > 30 then BadSizes
    else if pos + 3 * nb > |bits| then CutShort
    else WithLengths(ClLens(bits, pos, nb), nl, nl + nd, bits, pos + 3 * nb)
  }

  // The rest once the code length code is known.
  function WithLengths(cl: seq<nat>, nl: nat, total: nat, bits: seq<bool>, pos: nat): (s: Setup)
    requires nl <= total && pos <= |bits|
    ensures s.BadSet? ==> 1 <= s.code <= 2
    ensures !s.BadSizes?
    ensures s.Ready? ==> pos <= s.pos <= |bits|
  {
    if Verdict(cl) != 0 then BadSet(Verdict(cl))
    else
      match ReadLens(cl, bits, pos, total, [])
      case LensOff => CutShort
      case LensBad => BadLens
      case Lens(p, lens) => WithSets(lens[..nl], lens[nl..], p)
  }

  // The rest once both sets of lengths are known.
  function WithSets(lit: seq<nat>, dist: seq<nat>, pos: nat): (s: Setup)
    ensures s.BadSet? ==> 1 <= s.code <= 2
    ensures s.Ready? || s.BadSet?
    ensures s.Ready? ==> s.pos == pos
  {
    if Verdict(lit) != 0 then BadSet(Verdict(lit))
    else if Verdict(dist) != 0 then BadSet(Verdict(dist))
    else Ready(lit, dist, pos)
  }

  // A block of codes after its lengths.
  function Finish(s: Setup, bits: seq<bool>, out: seq<byte>): (r: Outcome)
    ensures (s.BadSet? ==> 1 <= s.code <= 2) ==> (r.BadTables? || r.BadData? ==> 1 <= r.code <= 2)
    ensures r != OffSpec ==> |out| <= |r.out|
    ensures r.Done? ==> s.Ready? && s.pos < r.pos <= |bits|
  {
    match s
    case Ready(lit, dist, p) => Codes(lit, dist, bits, p, out)
    case BadSizes => BadData(1, out)
    case BadSet(code) => BadTables(code, out)
    case BadLens => BadData(1, out)
    case CutShort => OffSpec
  }

  lemma FieldBound(bits: seq<bool>, pos: nat, n: nat)
    requires pos + n <= |bits|
    ensures Field(bits, pos, n) < Pow2(n)
  {
    NumBound(bits[pos..pos + n]);
  }

  // One block: BTYPE selects how it is read.
  function OneBlock(bits: seq<bool>, pos: nat, out: seq<byte>): (r: Outcome)
    ensures r.BadTables? || r.BadData? ==> 1 <= r.code <= 2
    ensures r != OffSpec ==> |out| <= |r.out|
    ensures r.Done? ==> pos < r.pos <= |bits|
  {
    if pos + 3 > |bits| then OffSpec
    else
      var t := Field(bits, pos + 1, 2);
      if t == 2 then Finish(SetUp(bits, pos + 3), bits, out)
      else if t == 0 then Stored(bits, pos + 3, out)
      else if t == 1 then Codes(FixedLit(), FixedDist(), bits, pos + 3, out)
      else BadData(2, out)
  }

  // Blocks up to and including the one with BFINAL set.
  function Inflated(bits: seq<bool>, pos: nat, out: seq<byte>): (r: Outcome)
    ensures r.BadTables? || r.BadData? ==> 1 <= r.code <= 2
    ensures r != OffSpec ==> |out| <= |r.out|
    ensures r.Done? ==> pos < r.pos <= |bits|
    decreases |bits| - pos
  {
    var b := OneBlock(bits, pos, out);
    if b.Done? && pos < |bits| && !bits[pos] then Inflated(bits, b.pos, b.out) else b
  }
}
