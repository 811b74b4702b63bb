// An encoder for the DEFLATE format (section 3.2 of RFC 1951), written from the rules of the format
// and without the tables of the decoder: what it writes, the reference decoder reads back.
module Encoding {
  import opened Bits
  import opened Canonical
  import opened Deflate
  import opened FixedCodes

  // ---- pieces of a stream ----

  // x comes next at pos.
  predicate At(bits: seq<bool>, pos: nat, x: seq<bool>)
  {
    pos + |x| <= |bits| && bits[pos..pos + |x|] == x
  }

  lemma AtParts(bits: seq<bool>, pos: nat, x: seq<bool>, y: seq<bool>)
    requires At(bits, pos, x + y)
    ensures At(bits, pos, x) && At(bits, pos + |x|, y)
  {
    SliceTake(bits, pos, pos + |x + y|, |x|);
    SliceDrop(bits, pos, pos + |x + y|, |x|);
    assert (x + y)[..|x|] == x && (x + y)[|x|..] == y;
  }

  lemma AtWithin(bits: seq<bool>, pos: nat, x: seq<bool>)
    requires At(bits, pos, x)
    ensures pos + |x| <= |bits|
  {
  }

  // A number of n bits, least significant bit first.
  function FieldBits(x: nat, n: nat): (s: seq<bool>)
    ensures |s| == n
  {
    if n == 0 then [] else [x % 2 == 1] + FieldBits(x / 2, n - 1)
  }

  lemma {:induction false} NumField(x: nat, n: nat)
    requires x < Pow2(n)
    ensures Num(FieldBits(x, n)) == x
  {
    if n > 0 {
      NumField(x / 2, n - 1);
      assert FieldBits(x, n)[1..] == FieldBits(x / 2, n - 1);
    }
  }

  lemma FieldRead(bits: seq<bool>, pos: nat, x: nat, n: nat)
    requires x < Pow2(n) && At(bits, pos, FieldBits(x, n))
    ensures pos + n <= |bits| && Field(bits, pos, n) == x
  {
    hide Num;
    NumField(x, n);
  }

  // ---- symbols ----

  // A set of code lengths that gives every symbol a code of its own.
  ghost predicate Proper(lens: seq<nat>)
  {
    (forall i :: 0 <= i < |lens| ==> lens[i] <= BMAX) && Kraft(lens) <= Pow2(BMAX)
  }

  predicate Has(lens: seq<nat>, sym: nat) { sym < |lens| && 1 <= lens[sym] <= BMAX }

  function CodeBits(lens: seq<nat>, sym: nat): (s: seq<bool>)
    requires Has(lens, sym)
    ensures |s| == lens[sym]
  {
    Word(CodeVal(lens, sym), lens[sym])
  }

  lemma SymbolRead(lens: seq<nat>, sym: nat, bits: seq<bool>, pos: nat)
    requires Proper(lens) && Has(lens, sym) && At(bits, pos, CodeBits(lens, sym))
    ensures Decode(lens, bits, pos) == Some(Decoded(sym, lens[sym]))
  {
    hide Be, Word, First, CodeVal, Kraft, Pow2;
    OverByKraft(lens);
    CodeValBound(lens, sym);
    BeWord(CodeVal(lens, sym), lens[sym]);
    DecodeFinds(lens, bits, pos, 1, sym);
  }

  // ---- lengths and distances ----

  // How often m can be halved and still be at least k.
  function Halvings(m: nat, k: nat): nat
    requires k > 0
  {
    if m < 2 * k then 0 else 1 + Halvings(m / 2, k)
  }

  // A code and the value of its extra bits.
  datatype Choice = Choice(code: nat, extra: nat, value: nat)

  // The length n: 258 has a code of its own; below that the codes come in fours, each four with
  // one extra bit more, starting from 3 without any.
  function LengthChoice(n: nat): Choice
    requires n >= 3
  {
    var m := n - 3;
    var e := Halvings(m, 4);
    if n == 258 then Choice(28, 0, 0) else Choice(4 * e + High(m, e), e, Low(m, e))
  }

  // The distance d: the codes come in pairs.
  function DistanceChoice(d: nat): Choice
    requires d >= 1
  {
    var m := d - 1;
    var e := Halvings(m, 2);
    Choice(2 * e + High(m, e), e, Low(m, e))
  }

  lemma {:induction false} HalvedParts(m: nat, k: nat)
    requires k > 0
    ensures var e := Halvings(m, k);
            && High(m, e) < 2 * k && (m >= k ==> k <= High(m, e))
            && Low(m, e) < Pow2(e) && m == Low(m, e) + High(m, e) * Pow2(e)
    decreases m
  {
    if m >= 2 * k {
      HalvedParts(m / 2, k);
      var e := Halvings(m / 2, k);
      Twice(Pow2(e), High(m / 2, e));
    }
  }

  // The parts determine the number.
  lemma {:induction false} HalvedBack(t: nat, e: nat, x: nat, k: nat)
    requires k > 0 && t < 2 * k && (e > 0 ==> k <= t) && x < Pow2(e)
    ensures var m := x + t * Pow2(e); Halvings(m, k) == e && High(m, e) == t && Low(m, e) == x
  {
    if e > 0 {
      var m := x + t * Pow2(e);
      Twice(Pow2(e - 1), t);
      assert m / 2 == x / 2 + t * Pow2(e - 1) && m % 2 == x % 2;
      HalvedBack(t, e - 1, x / 2, k);
      Pow2Mono(0, e - 1);
      MulMono(1, Pow2(e - 1), t);
      assert m >= 2 * k;
    }
  }

  // The base lengths and their extra bits, in closed form.
  lemma LengthTable(lc: nat)
    requires lc < 28
    ensures LenExtra()[lc] == if lc < 8 then 0 else (lc - 4) / 4
    ensures LenBase()[lc] == 3 + if lc < 8 then lc else (4 + lc % 4) * Pow2((lc - 4) / 4)
  {
    SmallPowers();
    assert lc < 4 || lc == 4 || lc == 5 || lc == 6 || lc == 7 || lc == 8 || lc == 9 || lc == 10 || lc == 11 || lc == 12
      || lc == 13 || lc == 14 || lc == 15 || lc == 16 || lc == 17 || lc == 18 || lc == 19 || lc == 20 || lc == 21
      || lc == 22 || lc == 23 || lc == 24 || lc == 25 || lc == 26 || lc == 27;
  }

  lemma LastLength()
    ensures LenBase()[28] == 258 && LenExtra()[28] == 0
  {
  }

  lemma DistanceTable(dc: nat)
    requires dc < 30
    ensures DistExtra()[dc] == if dc < 4 then 0 else (dc - 2) / 2
    ensures DistBase()[dc] == 1 + if dc < 4 then dc else (2 + dc % 2) * Pow2((dc - 2) / 2)
  {
    MorePowers();
    assert dc < 4 || dc == 4 || dc == 5 || dc == 6 || dc == 7 || dc == 8 || dc == 9 || dc == 10 || dc == 11 || dc == 12
      || dc == 13 || dc == 14 || dc == 15 || dc == 16 || dc == 17 || dc == 18 || dc == 19 || dc == 20 || dc == 21
      || dc == 22 || dc == 23 || dc == 24 || dc == 25 || dc == 26 || dc == 27 || dc == 28 || dc == 29;
  }

  lemma MorePowers()
    ensures Pow2(0) == 1 && Pow2(1) == 2 && Pow2(2) == 4 && Pow2(3) == 8 && Pow2(4) == 16 && Pow2(5) == 32
    ensures Pow2(6) == 64 && Pow2(7) == 128 && Pow2(8) == 256 && Pow2(9) == 512 && Pow2(10) == 1024
    ensures Pow2(11) == 2048 && Pow2(12) == 4096 && Pow2(13) == 8192 && Pow2(14) == 16384 && Pow2(15) == 32768
  {
    SmallPowers();
    assert Pow2(10) == 2 * Pow2(9);
    assert Pow2(12) == 2 * Pow2(11);
    assert Pow2(14) == 2 * Pow2(13);
  }

  lemma {:induction false} HalvingsUpTo(m: nat, k: nat, e: nat)
    requires k > 0 && m < 2 * k * Pow2(e)
    ensures Halvings(m, k) <= e
    decreases m
  {
    if m >= 2 * k {
      Twice(Pow2(e - 1), k);
      HalvingsUpTo(m / 2, k, e - 1);
    }
  }

  // Every length from 3 to 258 is what its choice stands for.
  lemma LengthRight(n: nat)
    requires 3 <= n <= 258
    ensures var c := LengthChoice(n);
            c.code < 29 && c.extra == LenExtra()[c.code] && c.value < Pow2(c.extra) && LenBase()[c.code] + c.value == n
  {
    hide LenBase, LenExtra, High, Low, Pow2;
    var m := n - 3;
    MorePowers();
    if n == 258 {
      LastLength();
    } else {
      HalvedParts(m, 4);
      HalvingsUpTo(m, 4, 5);
      LengthTable(LengthChoice(n).code);
    }
  }

  // And it is the only one, apart from 258 as the last length of the code before its own.
  lemma LengthOnly(lc: nat, x: nat)
    requires lc < 29 && x < Pow2(LenExtra()[lc])
    ensures 3 <= LenBase()[lc] + x <= 258
    ensures LenBase()[lc] + x == 258 <==> lc == 28 || (lc == 27 && x == 31)
    ensures LenBase()[lc] + x < 258 || lc == 28 ==> LengthChoice(LenBase()[lc] + x) == Choice(lc, LenExtra()[lc], x)
  {
    hide LenBase, LenExtra, High, Low, Pow2;
    MorePowers();
    if lc == 28 {
      LastLength();
    } else {
      LengthTable(lc);
      if lc < 8 {
        HalvedBack(lc, 0, x, 4);
      } else {
        var e := (lc - 4) / 4;
        HalvedBack(4 + lc % 4, e, x, 4);
        assert e == 1 || e == 2 || e == 3 || e == 4 || e == 5;
      }
    }
  }

  lemma DistanceRight(d: nat)
    requires 1 <= d <= 32768
    ensures var c := DistanceChoice(d);
            c.code < 30 && c.extra == DistExtra()[c.code] && c.value < Pow2(c.extra)
              && DistBase()[c.code] + c.value == d
  {
    hide DistBase, DistExtra, High, Low, Pow2;
    MorePowers();
    HalvedParts(d - 1, 2);
    HalvingsUpTo(d - 1, 2, 13);
    DistanceTable(DistanceChoice(d).code);
  }

  lemma DistanceOnly(dc: nat, y: nat)
    requires dc < 30 && y < Pow2(DistExtra()[dc])
    ensures 1 <= DistBase()[dc] + y <= 32768 && DistanceChoice(DistBase()[dc] + y) == Choice(dc, DistExtra()[dc], y)
  {
    hide DistBase, DistExtra, High, Low, Pow2;
    MorePowers();
    DistanceTable(dc);
    if dc < 4 {
      HalvedBack(dc, 0, y, 2);
    } else {
      HalvedBack(2 + dc % 2, (dc - 2) / 2, y, 2);
      DistanceTop(dc, y);
    }
  }

  lemma DistanceTop(dc: nat, y: nat)
    requires 4 <= dc < 30 && y < Pow2((dc - 2) / 2)
    ensures y + (2 + dc % 2) * Pow2((dc - 2) / 2) < 32768
  {
    hide Pow2;
    MorePowers();
    var e := (dc - 2) / 2;
    Pow2Mono(e, 13);
    MulAddOne(2 + dc % 2, Pow2(e));
    MulMono(3 + dc % 2, 4, Pow2(e));
  }

  // ---- literals and matches ----

  datatype Token = Literal(value: byte) | Copy(len: nat, dist: nat)

  // The token can be written with these sets when n bytes have been produced.
  predicate Fits(lit: seq<nat>, dist: seq<nat>, t: Token, n: nat)
  {
    match t
    case Literal(v) => Has(lit, v)
    case Copy(len, d) =>
      && 3 <= len <= 258 && 1 <= d <= 32768 && d <= n
      && Has(lit, 257 + LengthChoice(len).code) && Has(dist, DistanceChoice(d).code)
  }

  function TokenBits(lit: seq<nat>, dist: seq<nat>, t: Token, n: nat): seq<bool>
    requires Fits(lit, dist, t, n)
  {
    match t
    case Literal(v) => CodeBits(lit, v)
    case Copy(len, d) =>
      var c, e := LengthChoice(len), DistanceChoice(d);
      CodeBits(lit, 257 + c.code) + FieldBits(c.value, c.extra)
      + (CodeBits(dist, e.code) + FieldBits(e.value, e.extra))
  }

  // What the token adds to the output: a byte, or len bytes that each repeat the one d before.
  function Adds(t: Token, out: seq<byte>): (r: seq<byte>)
    requires t.Copy? ==> 1 <= t.dist <= |out|
    ensures |out| <= |r|
  {
    match t
    case Literal(v) => out + [v]
    case Copy(len, d) => out + Repeats(out, len, d)
  }

  // Byte i of a repetition is byte i modulo d of the last d bytes.
  function Repeats(out: seq<byte>, len: nat, d: nat): (r: seq<byte>)
    requires 1 <= d <= |out|
    ensures |r| == len
  {
    seq(len, i requires 0 <= i => out[|out| - d + i % d])
  }

  lemma {:induction false} RepeatsIs(out: seq<byte>, a: nat, len: nat, d: nat)
    requires 1 <= d <= |out|
    ensures LzCopy(out + Repeats(out, a, d), len, d) == out + Repeats(out, a + len, d)
    decreases len
  {
    var p := out + Repeats(out, a, d);
    if len > 0 {
      RepeatsNext(out, a, d);
      assert p + [p[|p| - d]] == out + Repeats(out, a + 1, d);
      RepeatsIs(out, a + 1, len - 1, d);
    }
  }

  lemma RepeatsNext(out: seq<byte>, a: nat, d: nat)
    requires 1 <= d <= |out|
    ensures var p := out + Repeats(out, a, d); p[|p| - d] == Repeats(out, a + 1, d)[a]
  {
    if a >= d { assert (a - d) % d == a % d by { ModLess(a, d); } }
  }

  lemma ModLess(a: nat, d: nat)
    requires 1 <= d <= a
    ensures (a - d) % d == a % d
  {
    var q, r := a / d, a % d;
    assert a == d * q + r;
    assert d * (q - 1) == d * q - d;
    DivModUnique(a - d, d, q - 1, r);
  }

  lemma AddsIs(out: seq<byte>, len: nat, d: nat)
    requires 1 <= d <= |out|
    ensures LzCopy(out, len, d) == Adds(Copy(len, d), out)
  {
    assert out + Repeats(out, 0, d) == out;
    RepeatsIs(out, 0, len, d);
  }

  lemma MatchRead(dist: seq<nat>, bits: seq<bool>, pos: nat, out: seq<byte>, len: nat, d: nat)
    requires Proper(dist) && 3 <= len <= 258 && 1 <= d <= 32768 && d <= |out| && Has(dist, DistanceChoice(d).code)
    requires var c, e := LengthChoice(len), DistanceChoice(d);
             At(bits, pos, FieldBits(c.value, c.extra) + (CodeBits(dist, e.code) + FieldBits(e.value, e.extra)))
    ensures var c, e := LengthChoice(len), DistanceChoice(d);
            MatchStep(dist, bits, pos, c.code, out)
            == Next(pos + c.extra + dist[e.code] + e.extra, Adds(Copy(len, d), out))
  {
    hide LenBase, LenExtra, DistBase, DistExtra, At, FieldBits, CodeBits, Decode, LengthChoice, DistanceChoice, Num;
    hide Adds, LzCopy, Proper;
    var c, e := LengthChoice(len), DistanceChoice(d);
    LengthRight(len);
    DistanceRight(d);
    AtParts(bits, pos, FieldBits(c.value, c.extra), CodeBits(dist, e.code) + FieldBits(e.value, e.extra));
    FieldRead(bits, pos, c.value, c.extra);
    var p := pos + c.extra;
    AtParts(bits, p, CodeBits(dist, e.code), FieldBits(e.value, e.extra));
    SymbolRead(dist, e.code, bits, p);
    FieldRead(bits, p + dist[e.code], e.value, e.extra);
    AddsIs(out, len, d);
  }

  // The decoder comes to the match behind its length code.
  lemma LengthRead(lit: seq<nat>, dist: seq<nat>, bits: seq<bool>, pos: nat, lc: nat, out: seq<byte>)
    requires Proper(lit) && Has(lit, 257 + lc) && At(bits, pos, CodeBits(lit, 257 + lc))
    ensures pos + lit[257 + lc] <= |bits|
    ensures CodeStep(lit, dist, bits, pos, out) == MatchStep(dist, bits, pos + lit[257 + lc], lc, out)
  {
    hide At, CodeBits, Decode, MatchStep, Proper;
    AtWithin(bits, pos, CodeBits(lit, 257 + lc));
    SymbolRead(lit, 257 + lc, bits, pos);
  }

  lemma LiteralRead(lit: seq<nat>, dist: seq<nat>, bits: seq<bool>, pos: nat, v: byte, out: seq<byte>)
    requires Proper(lit) && Has(lit, v) && At(bits, pos, CodeBits(lit, v))
    ensures CodeStep(lit, dist, bits, pos, out) == Next(pos + lit[v], out + [v])
  {
    hide At, CodeBits, Decode, MatchStep, Proper;
    SymbolRead(lit, v, bits, pos);
  }

  lemma CopyBits(lit: seq<nat>, dist: seq<nat>, n: nat, len: nat, d: nat)
    requires Fits(lit, dist, Copy(len, d), n)
    ensures var c, e := LengthChoice(len), DistanceChoice(d);
            TokenBits(lit, dist, Copy(len, d), n) == CodeBits(lit, 257 + c.code)
              + (FieldBits(c.value, c.extra) + (CodeBits(dist, e.code) + FieldBits(e.value, e.extra)))
    ensures var c, e := LengthChoice(len), DistanceChoice(d);
            |TokenBits(lit, dist, Copy(len, d), n)| == lit[257 + c.code] + c.extra + dist[e.code] + e.extra
  {
    hide LengthChoice, DistanceChoice, CodeBits, FieldBits;
    var c, e := LengthChoice(len), DistanceChoice(d);
    var a, x, y, z := CodeBits(lit, 257 + c.code), FieldBits(c.value, c.extra), CodeBits(dist, e.code),
        FieldBits(e.value, e.extra);
    Associate(a, x, y + z);
  }

  lemma Associate(a: seq<bool>, b: seq<bool>, c: seq<bool>)
    ensures a + b + c == a + (b + c)
  {
  }

  lemma CopyRead(lit: seq<nat>, dist: seq<nat>, bits: seq<bool>, pos: nat, out: seq<byte>, len: nat, d: nat)
    requires Proper(lit) && Proper(dist) && Fits(lit, dist, Copy(len, d), |out|)
    requires At(bits, pos, TokenBits(lit, dist, Copy(len, d), |out|))
    ensures CodeStep(lit, dist, bits, pos, out)
            == Next(pos + |TokenBits(lit, dist, Copy(len, d), |out|)|, Adds(Copy(len, d), out))
  {
    hide At, FieldBits, CodeBits, CodeStep, LengthChoice, DistanceChoice, MatchStep, Proper, Adds, TokenBits;
    var c, e := LengthChoice(len), DistanceChoice(d);
    CopyBits(lit, dist, |out|, len, d);
    var a, r := CodeBits(lit, 257 + c.code),
        FieldBits(c.value, c.extra) + (CodeBits(dist, e.code) + FieldBits(e.value, e.extra));
    AtParts(bits, pos, a, r);
    LengthRead(lit, dist, bits, pos, c.code, out);
    MatchRead(dist, bits, pos + |a|, out, len, d);
  }

  // The reference decoder reads a token back.
  lemma TokenRead(lit: seq<nat>, dist: seq<nat>, bits: seq<bool>, pos: nat, out: seq<byte>, t: Token)
    requires Proper(lit) && Proper(dist) && Fits(lit, dist, t, |out|) && At(bits, pos, TokenBits(lit, dist, t, |out|))
    ensures CodeStep(lit, dist, bits, pos, out) == Next(pos + |TokenBits(lit, dist, t, |out|)|, Adds(t, out))
  {
    hide At, CodeBits, CodeStep, Proper, Repeats;
    match t
    case Literal(v) => LiteralRead(lit, dist, bits, pos, v, out);
    case Copy(len, d) => CopyRead(lit, dist, bits, pos, out, len, d);
  }
}
