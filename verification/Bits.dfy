// Bit strings and the two ways DEFLATE reads them as numbers: Huffman codes are
// packed most significant bit first, everything else least significant bit first.
module Bits {

  type byte = x: int | 0 <= x < 256

  function Pow2(n: nat): (p: nat)
    ensures p >= 1
  {
    if n == 0 then 1 else 2 * Pow2(n - 1)
  }

  // x & mask_bits[n]: the low n bits of x.
  function Low(x: nat, n: nat): nat
  {
    if n == 0 then 0 else x % 2 + 2 * Low(x / 2, n - 1)
  }

  // x >> n: x without its low n bits.
  function High(x: nat, n: nat): nat
  {
    if n == 0 then x else High(x / 2, n - 1)
  }

  function BitVal(b: bool): nat { if b then 1 else 0 }

  // Least significant bit first: the first bit of the stream is the low bit.
  function Num(s: seq<bool>): nat
  {
    if s == [] then 0 else BitVal(s[0]) + 2 * Num(s[1..])
  }

  // Most significant bit first: the way a Huffman code word is read.
  function Be(s: seq<bool>): nat
  {
    if s == [] then 0 else 2 * Be(s[..|s| - 1]) + BitVal(s[|s| - 1])
  }

  // The k-bit code word whose value is v.
  function Word(v: nat, k: nat): (s: seq<bool>)
    ensures |s| == k
  {
    if k == 0 then [] else Word(v / 2, k - 1) + [v % 2 == 1]
  }

  // The bits of a byte string in stream order.
  function Stream(input: seq<byte>): (s: seq<bool>)
    ensures |s| == 8 * |input|
  {
    seq(8 * |input|, p requires 0 <= p < 8 * |input| => input[p / 8] / Pow2(p % 8) % 2 == 1)
  }

  lemma {:induction false} Pow2Add(a: nat, b: nat)
    ensures Pow2(a + b) == Pow2(a) * Pow2(b)
  {
    if b == 0 {
    } else {
      Pow2Add(a, b - 1);
      assert Pow2(a + b) == 2 * (Pow2(a) * Pow2(b - 1));
    }
  }

  lemma Pow2Step(a: nat)
    ensures Pow2(a + 1) == 2 * Pow2(a)
  {
  }

  lemma {:induction false} LowBelow(x: nat, n: nat)
    requires x < Pow2(n)
    ensures Low(x, n) == x
  {
    if n > 0 { LowBelow(x / 2, n - 1); }
  }

  lemma {:induction false} LowAdd(x: nat, n: nat)
    ensures Low(x + Pow2(n), n) == Low(x, n)
  {
    if n > 0 {
      assert (x + Pow2(n)) / 2 == x / 2 + Pow2(n - 1) && (x + Pow2(n)) % 2 == x % 2;
      LowAdd(x / 2, n - 1);
    }
  }

  // Numbers that agree in their low n bits are Pow2(n) apart or more.
  lemma {:induction false} LowApart(a: nat, b: nat, n: nat)
    requires a < b && Low(a, n) == Low(b, n)
    ensures b - a >= Pow2(n)
  {
    if n > 0 {
      LowStep(a, b, n);
      LowApart(a / 2, b / 2, n - 1);
    }
  }

  lemma LowStep(a: nat, b: nat, n: nat)
    requires n > 0 && a < b && Low(a, n) == Low(b, n)
    ensures a % 2 == b % 2 && a / 2 < b / 2 && Low(a / 2, n - 1) == Low(b / 2, n - 1) && b - a == 2 * (b / 2 - a / 2)
  {
  }

  lemma MulAddOne(p: nat, q: nat)
    ensures (p + 1) * q == p * q + q
  {
  }

  lemma SliceTake<T>(s: seq<T>, a: nat, b: nat, n: nat)
    requires a <= b <= |s| && n <= b - a
    ensures s[a..b][..n] == s[a..a + n]
  {
  }

  lemma SliceDrop<T>(s: seq<T>, a: nat, b: nat, n: nat)
    requires a <= b <= |s| && n <= b - a
    ensures s[a..b][n..] == s[a + n..b]
  {
  }

  lemma {:induction false} Pow2Mono(a: nat, b: nat)
    requires a <= b
    ensures Pow2(a) <= Pow2(b)
    ensures a < b ==> 2 * Pow2(a) <= Pow2(b)
    decreases b
  {
    if a < b { Pow2Mono(a, b - 1); }
  }

  lemma {:induction false} NumBound(s: seq<bool>)
    ensures Num(s) < Pow2(|s|)
  {
    if s != [] { NumBound(s[1..]); }
  }

  lemma {:induction false} BeBound(s: seq<bool>)
    ensures Be(s) < Pow2(|s|)
  {
    if s != [] { BeBound(s[..|s| - 1]); }
  }

  lemma Twice(p: nat, n: nat)
    ensures 2 * (p * n) == (2 * p) * n
    ensures 2 * (n * p) == n * (2 * p)
  {
  }

  // x << n
  function Shl(x: nat, n: nat): nat
  {
    if n == 0 then x else 2 * Shl(x, n - 1)
  }

  lemma {:induction false} ShlMul(x: nat, n: nat)
    ensures Shl(x, n) == Pow2(n) * x == x * Pow2(n)
  {
    if n > 0 {
      ShlMul(x, n - 1);
      Twice(Pow2(n - 1), x);
    }
  }

  lemma {:induction false} NumAppendShl(a: seq<bool>, b: seq<bool>)
    ensures Num(a + b) == Num(a) + Shl(Num(b), |a|)
  {
    if a == [] {
      assert a + b == b;
    } else {
      NumAppendShl(a[1..], b);
      assert (a + b)[1..] == a[1..] + b;
    }
  }

  lemma {:induction false} BeAppendShl(a: seq<bool>, b: seq<bool>)
    ensures Be(a + b) == Shl(Be(a), |b|) + Be(b)
  {
    if b == [] {
      assert a + b == a;
    } else {
      var c := b[..|b| - 1];
      BeAppendShl(a, c);
      assert (a + b)[..|a + b| - 1] == a + c;
    }
  }

  lemma NumAppend(a: seq<bool>, b: seq<bool>)
    ensures Num(a + b) == Num(a) + Pow2(|a|) * Num(b)
  {
    NumAppendShl(a, b);
    ShlMul(Num(b), |a|);
  }

  lemma BeAppend(a: seq<bool>, b: seq<bool>)
    ensures Be(a + b) == Be(a) * Pow2(|b|) + Be(b)
  {
    BeAppendShl(a, b);
    ShlMul(Be(a), |b|);
  }

  lemma {:induction false} NumInjective(a: seq<bool>, b: seq<bool>)
    requires |a| == |b| && Num(a) == Num(b)
    ensures a == b
  {
    if a != [] {
      NumInjective(a[1..], b[1..]);
      assert a == [a[0]] + a[1..] && b == [b[0]] + b[1..];
    }
  }

  lemma {:induction false} BeInjective(a: seq<bool>, b: seq<bool>)
    requires |a| == |b| && Be(a) == Be(b)
    ensures a == b
  {
    if a != [] {
      BeInjective(a[..|a| - 1], b[..|a| - 1]);
      assert a == a[..|a| - 1] + [a[|a| - 1]] && b == b[..|a| - 1] + [b[|a| - 1]];
    }
  }

  lemma MulAtLeast(a: int, d: int)
    requires a >= 1 && d > 0
    ensures a * d >= d
  {
    assert a * d == (a - 1) * d + d;
  }

  lemma DivModUnique(x: int, d: int, q: int, r: int)
    requires d > 0 && 0 <= r < d && x == r + d * q
    ensures x / d == q && x % d == r
  {
    var q', r' := x / d, x % d;
    assert x == d * q' + r' && 0 <= r' < d;
    var t := q - q';
    assert t * d == d * q - d * q';
    assert (-t) * d == -(t * d);
    if t >= 1 { MulAtLeast(t, d); }
    if t <= -1 { MulAtLeast(-t, d); }
  }

  // Masking keeps the first n bits and shifting drops them.
  lemma {:induction false} NumSplit(s: seq<bool>, n: nat)
    requires n <= |s|
    ensures Num(s[..n]) == Low(Num(s), n)
    ensures Num(s[n..]) == High(Num(s), n)
  {
    if n == 0 {
      assert s[..0] == [] && s[0..] == s;
    } else {
      var t := s[1..];
      NumSplit(t, n - 1);
      assert s[..n][1..] == t[..n - 1] && s[n..] == t[n - 1..];
      assert Num(s) / 2 == Num(t) && Num(s) % 2 == BitVal(s[0]);
    }
  }

  lemma BeSplit(s: seq<bool>, n: nat)
    requires n <= |s|
    ensures Be(s[..n]) * Pow2(|s| - n) <= Be(s) < (Be(s[..n]) + 1) * Pow2(|s| - n)
  {
    hide Be;
    hide Pow2;
    assert s == s[..n] + s[n..];
    BeAppend(s[..n], s[n..]);
    BeBound(s[n..]);
    var q, d := Be(s[..n]), Pow2(|s| - n);
    MulAddOne(q, d);
  }

  lemma {:induction false} BeWord(v: nat, k: nat)
    requires v < Pow2(k)
    ensures Be(Word(v, k)) == v
  {
    hide Pow2, Word, Be;
    WordNone(v);
    if k > 0 {
      HalfBelow(v, k);
      BeWord(v / 2, k - 1);
      WordParts(v, k);
      BeLast(Word(v, k));
    }
  }

  lemma WordNone(v: nat)
    ensures Be(Word(v, 0)) == 0 && Pow2(0) == 1
  {
  }

  lemma HalfBelow(v: nat, k: nat)
    requires k > 0 && v < Pow2(k)
    ensures v / 2 < Pow2(k - 1)
  {
  }

  lemma WordParts(v: nat, k: nat)
    requires k > 0
    ensures Word(v, k)[..k - 1] == Word(v / 2, k - 1) && Word(v, k)[k - 1] == (v % 2 == 1)
  {
  }

  lemma BeLast(s: seq<bool>)
    requires s != []
    ensures Be(s) == 2 * Be(s[..|s| - 1]) + BitVal(s[|s| - 1])
  {
  }

  lemma {:induction false} ZerosAreZero(s: seq<bool>)
    requires forall i :: 0 <= i < |s| ==> !s[i]
    ensures Num(s) == 0 && Be(s) == 0
  {
    if s != [] {
      ZerosAreZero(s[1..]);
      ZerosAreZero(s[..|s| - 1]);
    }
  }

  lemma DivTwice(x: nat, d: nat)
    requires d > 0
    ensures x / 2 / d == x / (2 * d)
  {
    var a := x / 2;
    var q, r := a / d, a % d;
    assert a == d * q + r;
    assert (2 * d) * q == 2 * (d * q);
    DivModUnique(x, 2 * d, q, 2 * r + x % 2);
  }

  lemma {:induction false} NumOfBits(s: seq<bool>, x: nat)
    requires x < Pow2(|s|)
    requires forall j :: 0 <= j < |s| ==> s[j] == (x / Pow2(j) % 2 == 1)
    ensures Num(s) == x
  {
    if s != [] {
      var t := s[1..];
      forall j | 0 <= j < |t| ensures t[j] == (x / 2 / Pow2(j) % 2 == 1) {
        DivTwice(x, Pow2(j));
        assert s[j + 1] == (x / Pow2(j + 1) % 2 == 1);
      }
      NumOfBits(t, x / 2);
      assert x / Pow2(0) == x;
    }
  }

  // Eight consecutive stream bits starting on a byte boundary are that byte.
  lemma StreamByte(input: seq<byte>, i: nat)
    requires i < |input|
    ensures Num(Stream(input)[8 * i..8 * i + 8]) == input[i]
  {
    var s := Stream(input)[8 * i..8 * i + 8];
    var x: int := input[i];
    forall j | 0 <= j < 8 ensures s[j] == (x / Pow2(j) % 2 == 1) {
      assert (8 * i + j) / 8 == i && (8 * i + j) % 8 == j;
    }
    SmallPowers();
    NumOfBits(s, x);
  }

  lemma SmallPowers()
    ensures Pow2(1) == 2 && Pow2(2) == 4 && Pow2(3) == 8 && Pow2(4) == 16
    ensures Pow2(5) == 32 && Pow2(6) == 64 && Pow2(7) == 128 && Pow2(8) == 256
    ensures Pow2(9) == 512 && Pow2(15) == 32768 && Pow2(16) == 65536
  {
    assert Pow2(4) == 2 * Pow2(3);
    assert Pow2(6) == 2 * Pow2(5);
    assert Pow2(8) == 2 * Pow2(7);
    assert Pow2(10) == 2 * Pow2(9);
    assert Pow2(12) == 2 * Pow2(11);
    assert Pow2(14) == 2 * Pow2(13);
    assert Pow2(16) == 2 * Pow2(15);
  }

  // ---- bits packed into bytes ----

  lemma StreamCut(data: seq<byte>, i: nat)
    requires i <= |data|
    ensures Stream(data)[..8 * i] == Stream(data[..i]) && Stream(data)[8 * i..] == Stream(data[i..])
  {
    hide Pow2;
    var s, t := Stream(data)[8 * i..], Stream(data[i..]);
    forall p | 0 <= p < |t| ensures s[p] == t[p] { StreamShift(data, i, p); }
  }

  lemma StreamShift(data: seq<byte>, i: nat, p: nat)
    requires i <= |data| && p < 8 * (|data| - i)
    ensures Stream(data)[8 * i + p] == Stream(data[i..])[p]
  {
    hide Pow2;
    assert (8 * i + p) / 8 == i + p / 8 && (8 * i + p) % 8 == p % 8;
  }

  function ByteOf(bits: seq<bool>, i: nat): byte
    requires 8 * i + 8 <= |bits|
  {
    NumBound(bits[8 * i..8 * i + 8]);
    SmallPowers();
    Num(bits[8 * i..8 * i + 8])
  }

  // The bytes whose stream these bits are; a rest of less than eight is dropped.
  function Pack(bits: seq<bool>): (s: seq<byte>)
    ensures |s| == |bits| / 8
  {
    seq(|bits| / 8, i requires 0 <= i < |bits| / 8 => ByteOf(bits, i))
  }

  lemma StreamPack(bits: seq<bool>)
    requires |bits| % 8 == 0
    ensures Stream(Pack(bits)) == bits
  {
    hide Stream, Num;
    var s, x := Stream(Pack(bits)), Pack(bits);
    forall p | 0 <= p < |bits| ensures s[p] == bits[p] {
      var i := p / 8;
      StreamByte(x, i);
      NumInjective(s[8 * i..8 * i + 8], bits[8 * i..8 * i + 8]);
      assert s[p] == s[8 * i..8 * i + 8][p - 8 * i] && bits[p] == bits[8 * i..8 * i + 8][p - 8 * i];
    }
  }

  // The stream of the middle of three byte strings.
  lemma MiddleBits(h: seq<byte>, x: seq<byte>, t: seq<byte>)
    ensures Stream(h + x + t)[..8 * (|h| + |x|)][8 * |h|..] == Stream(x)
  {
    hide Stream;
    var z := h + x + t;
    StreamCut(z, |h| + |x|);
    assert z[..|h| + |x|] == h + x;
    StreamCut(h + x, |h|);
    assert (h + x)[|h|..] == x;
  }
}
