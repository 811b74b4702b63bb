// Firmware images: the maker (tool source/MAKEIMG/makimage.c) and the checker
// (loader/src/loader.c) agree on a 256-byte header with a checksum over all the rest.
module Image {
  import opened Bits
  import opened Crc32

  const HDR: nat := 256                       // sizeof(HEADER_VER1)
  const MEM_SIZE: nat := 2 * 1024 * 1024 + 32
  const EEPROM_TYPE: byte := 0xB3

  function Ones(): Reg { Reg(0xFFFFFFFF) }

  // ---- what the seed means ----

  function Not(s: seq<bool>): (r: seq<bool>)
    ensures |r| == |s|
  {
    seq(|s|, i requires 0 <= i < |s| => !s[i])
  }

  // s with its first four bytes complemented.
  function Flipped(s: seq<byte>): (r: seq<byte>)
    ensures |r| == |s|
  {
    seq(|s|, i requires 0 <= i < |s| => if i < 4 then 255 - s[i] else s[i])
  }

  lemma {:induction false} NumNot(s: seq<bool>)
    ensures Num(Not(s)) == Pow2(|s|) - 1 - Num(s)
  {
    if s != [] {
      NumNot(s[1..]);
      assert Not(s)[1..] == Not(s[1..]);
    }
  }

  lemma FlippedByte(s: seq<byte>, i: nat)
    requires i < 4 <= |s|
    ensures Stream(Flipped(s))[8 * i..8 * i + 8] == Not(Stream(s)[8 * i..8 * i + 8])
  {
    hide Num, Stream, Not;
    var t := Flipped(s);
    StreamByte(s, i);
    StreamByte(t, i);
    NumNot(Stream(s)[8 * i..8 * i + 8]);
    SmallPowers();
    NumInjective(Stream(t)[8 * i..8 * i + 8], Not(Stream(s)[8 * i..8 * i + 8]));
  }

  lemma FlippedStream(s: seq<byte>)
    requires |s| >= 4
    ensures Stream(Flipped(s))[..32] == Not(Stream(s)[..32]) && Stream(Flipped(s))[32..] == Stream(s)[32..]
  {
    hide Stream;
    var t := Flipped(s);
    var a, b := Stream(s), Stream(t);
    forall p | 0 <= p < 32 ensures b[p] == !a[p] {
      var i := p / 8;
      FlippedByte(s, i);
      assert b[p] == b[8 * i..8 * i + 8][p - 8 * i];
      assert a[p] == a[8 * i..8 * i + 8][p - 8 * i];
    }
    StreamCut(s, 4);
    StreamCut(t, 4);
    assert s[4..] == t[4..];
  }

  lemma PushNot(b: bool, p: bv32, q: bv32)
    ensures PushBv(!b, XorBv(p, q)) == XorBv(PushBv(true, p), PushBv(b, q))
  {
  }

  lemma {:induction false} WNot(s: seq<bool>)
    ensures W(Not(s)) == Xor(Mask(|s|), W(s))
  {
    hide PushBv, XorBv;
    if s == [] {
      XorLaws(Zero(), Zero(), Zero());
    } else {
      WNot(s[1..]);
      assert Not(s)[1..] == Not(s[1..]);
      PushNot(s[0], Mask(|s| - 1).w, W(s[1..]).w);
    }
  }

  lemma MaskFull()
    ensures Mask(32) == Ones()
  {
    hide Mask;
    MaskTop();
    MaskNext(31);
  }

  lemma MaskNext(n: nat)
    ensures Mask(n + 1) == Push(true, Mask(n))
  {
  }

  // The checksums divide the message, its first four bytes complemented, from zero.
  lemma SeedComplements(s: seq<byte>)
    requires |s| >= 4
    ensures Crc(s, Ones()) == Crc(Flipped(s), Zero())
  {
    hide Stream, BitCrc, W, Xor, Steps, Mask, Ones, Not, Flipped;
    var a, b := Stream(s), Stream(Flipped(s));
    FlippedStream(s);
    assert a == a[..32] + a[32..] && b == b[..32] + b[32..];
    BitCrcAppend(a[..32], a[32..], Ones());
    BitCrcAppend(b[..32], b[32..], Zero());
    AtOnce(a[..32], Ones());
    AtOnce(b[..32], Zero());
    WNot(a[..32]);
    MaskFull();
    assert W(b[..32]) == Xor(Ones(), W(a[..32]));
    XorLaws(W(b[..32]), Zero(), Zero());
  }

  // ---- numbers and checksums as bytes ----

  // The k low bytes of n, lowest first.
  function Le(n: nat, k: nat): (s: seq<byte>)
    ensures |s| == k
  {
    if k == 0 then [] else [n % 256] + Le(n / 256, k - 1)
  }

  function Unle(s: seq<byte>): nat { if s == [] then 0 else s[0] as int + 256 * Unle(s[1..]) }

  function Pow256(k: nat): nat { if k == 0 then 1 else 256 * Pow256(k - 1) }

  lemma {:induction false} UnleLe(n: nat, k: nat)
    requires n < Pow256(k)
    ensures Unle(Le(n, k)) == n
  {
    if k > 0 {
      UnleLe(n / 256, k - 1);
      assert Le(n, k)[1..] == Le(n / 256, k - 1);
    }
  }

  lemma FourBytes()
    ensures Pow256(4) == 0x1_0000_0000
  {
    assert Pow256(2) == 65536;
  }

  // NGET32
  function NGet32(p: seq<byte>): (n: nat)
    requires |p| == 4
    ensures n == Unle(p)
  {
    assert p[1..][1..] == p[2..] && p[2..][1..] == p[3..] && p[3..][1..] == [];
    assert Unle(p[3..]) == p[3] as int && Unle(p[2..]) == p[2] as int + 256 * Unle(p[3..]);
    assert Unle(p[1..]) == p[1] as int + 256 * Unle(p[2..]);
    var b0: int, b1: int, b2: int, b3: int := p[0], p[1], p[2], p[3];
    b0 + b1 * 0x100 + b2 * 0x10000 + b3 * 0x1000000
  }

  // The bytes of a register in memory.
  function CrcBytes(c: Reg): (s: seq<byte>)
    ensures |s| == 4
  {
    Pack(BitsOf(c, 32))
  }

  // Four bytes of memory as a register.
  function RegAt(s: seq<byte>): Reg { W(Stream(s)) }

  lemma StreamCrcBytes(c: Reg)
    ensures Stream(CrcBytes(c)) == BitsOf(c, 32)
  {
    StreamPack(BitsOf(c, 32));
  }

  lemma {:induction false} WBitsOf(a: Reg, n: nat)
    requires HalfN(a, n) == Zero()
    ensures W(BitsOf(a, n)) == a
    decreases n
  {
    hide Push, Half, Odd, Xor, Roomy;
    if n > 0 {
      WBitsOf(Half(a), n - 1);
      PushLaws(false, a);
      assert BitsOf(a, n)[1..] == BitsOf(Half(a), n - 1);
    }
  }

  lemma {:induction false} HalfNAdd(a: Reg, m: nat, n: nat)
    ensures HalfN(HalfN(a, m), n) == HalfN(a, m + n)
    decreases m
  {
    hide Half;
    if m > 0 { HalfNAdd(Half(a), m - 1, n); }
  }

  lemma ShiftedOut(a: bv32)
    ensures ShiftByte(ShiftByte(ShiftByte(ShiftByte(Reg(a))))) == Zero()
  {
  }

  // Storing a register and loading it again.
  lemma RegOfCrcBytes(c: Reg)
    ensures RegAt(CrcBytes(c)) == c
  {
    hide Stream, BitsOf, W, HalfN, ShiftByte, CrcBytes;
    StreamCrcBytes(c);
    var d := HalfN(c, 8);
    var e := HalfN(d, 8);
    var f := HalfN(e, 8);
    HalfNEight(c);
    HalfNEight(d);
    HalfNEight(e);
    HalfNEight(f);
    HalfNAdd(c, 8, 8);
    HalfNAdd(c, 16, 8);
    HalfNAdd(c, 24, 8);
    ShiftedOut(c.w);
    WBitsOf(c, 32);
  }

  // Loading different bytes gives different registers.
  lemma RegAtInjective(s: seq<byte>, t: seq<byte>)
    requires |s| == |t| == 4 && RegAt(s) == RegAt(t)
    ensures s == t
  {
    hide Stream, BitsOf, W;
    BitsOfW(Stream(s));
    BitsOfW(Stream(t));
    StreamInjective(s, t);
  }

  // ---- the format ----

  function FileLen(img: seq<byte>): nat
    requires |img| >= HDR
  {
    Unle(img[8..12])
  }

  // What follows the checksum, and the checksum it should have.
  function Checksum(img: seq<byte>): seq<byte>
    requires |img| >= HDR
  {
    CrcBytes(Crc(img[4..], Ones()))
  }

  // One image: a header, as many bytes as its length field says, and the right checksum.
  predicate Sound(img: seq<byte>)
  {
    |img| >= HDR && |img| == HDR + FileLen(img) && img[..4] == Checksum(img)
  }

  // ---- the checker ----

  // The image the length field delimits, when it is within the limit.
  predicate Accepts(flash: seq<byte>, start: nat, limit: nat)
    requires start + HDR + limit <= |flash|
  {
    var n := Unle(flash[start + 8..start + 12]);
    n <= limit && Sound(flash[start..start + HDR + n])
  }

  // loader.c:266-280 and 296-310: check the copy in SDRAM.
  method CheckCopy(copy: seq<byte>, limit: nat) returns (r: nat)
    requires |copy| >= HDR && (FileLen(copy) <= limit ==> |copy| == HDR + FileLen(copy))
    ensures r == if FileLen(copy) <= limit && Sound(copy) then FileLen(copy) else 0
  {
    hide Crc, Stream, W, CrcBytes, Unle;
    var stored := copy[..4];
    var length := NGet32(copy[8..12]);
    if length > limit { return 0; }
    var sum := TableCrc(copy[4..length + HDR], Ones());
    assert copy[4..length + HDR] == copy[4..];
    StoredMatches(stored, sum);
    if sum != RegAt(stored) { return 0; }
    return length;
  }

  lemma SliceOfSlice(s: seq<byte>, a: nat, b: nat, i: nat, j: nat)
    requires a <= b <= |s| && i <= j <= b - a
    ensures s[a..b][i..j] == s[a + i..a + j]
  {
    SliceTake(s[a..], 0, b - a, j);
    assert s[a..b][..j] == s[a..a + j];
    SliceDrop(s, a, a + j, i);
    assert s[a..b][i..j] == s[a..b][..j][i..];
  }

  // Comparing registers is comparing the stored bytes.
  lemma StoredMatches(stored: seq<byte>, c: Reg)
    requires |stored| == 4
    ensures RegAt(stored) == c <==> stored == CrcBytes(c)
  {
    hide RegAt, CrcBytes;
    RegOfCrcBytes(c);
    if RegAt(stored) == c { RegAtInjective(stored, CrcBytes(c)); }
  }

  // An image of 1 to limit bytes of payload is accepted wherever it is placed.
  lemma SoundAccepted(flash: seq<byte>, start: nat, limit: nat, img: seq<byte>)
    requires start + HDR + limit <= |flash| && Sound(img) && FileLen(img) <= limit
    requires flash[start..start + |img|] == img
    ensures Accepts(flash, start, limit) && Unle(flash[start + 8..start + 12]) == FileLen(img)
  {
    hide Crc, CrcBytes, Unle;
    SliceOfSlice(flash, start, start + |img|, 8, 12);
  }

  // Damage confined to four consecutive bytes, on either side of the end of the checksum
  // field and leaving the length alone, is always detected.
  lemma DamageDetected(img: seq<byte>, bad: seq<byte>, i: nat, n: nat)
    requires Sound(img) && |bad| == |img| && bad != img && bad[8..12] == img[8..12]
    requires n <= 4 && i + n <= |img| && bad[..i] == img[..i] && bad[i + n..] == img[i + n..]
    requires i + n <= 4 || i >= 4
    ensures !Sound(bad)
  {
    hide Crc, CrcBytes, Unle;
    if i + n <= 4 {
      assert bad[4..] == bad[i + n..][4 - i - n..] && img[4..] == img[i + n..][4 - i - n..];
      assert img == img[..4] + img[4..] && bad == bad[..4] + bad[4..];
    } else {
      assert img[..4] == img[..i][..4] && bad[..4] == bad[..i][..4];
      var u, v := img[4..], bad[4..];
      assert u[..i - 4] == img[..i][4..] && v[..i - 4] == bad[..i][4..];
      assert u[i - 4 + n..] == img[i + n..] && v[i - 4 + n..] == bad[i + n..];
      assert img == img[..4] + u && bad == bad[..4] + v;
      FourByteBurst(u, v, i - 4, n, Ones());
      if Checksum(img) == Checksum(bad) { CrcBytesInjective(Crc(u, Ones()), Crc(v, Ones())); }
    }
  }

  lemma CrcBytesInjective(a: Reg, b: Reg)
    requires CrcBytes(a) == CrcBytes(b)
    ensures a == b
  {
    hide CrcBytes, RegAt;
    RegOfCrcBytes(a);
    RegOfCrcBytes(b);
  }
}
