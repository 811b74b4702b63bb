// crc32 of loader/src/crc32.c and of the image maker: the table-driven loop is the
// bit-at-a-time division by the reflected polynomial 0xEDB88320.
module Crc32 {
  import opened Bits

  // ---- registers ----

  const POLY: bv32 := 0xEDB88320

  // A 32-bit register.  The operations on it are named so that proofs can use their laws.
  datatype Reg = Reg(w: bv32)

  function Xor(a: Reg, b: Reg): Reg { Reg(XorBv(a.w, b.w)) }
  predicate Odd(a: Reg) { OddBv(a.w) }
  function Half(a: Reg): Reg { Reg(HalfBv(a.w)) }
  function Push(b: bool, a: Reg): Reg { Reg(PushBv(b, a.w)) }   // a bit below a register
  function Zero(): Reg { Reg(0) }

  function XorBv(a: bv32, b: bv32): bv32 { a ^ b }
  predicate OddBv(a: bv32) { a & 1 == 1 }
  function HalfBv(a: bv32): bv32 { a >> 1 }
  function PushBv(b: bool, a: bv32): bv32 { (if b then 1 else 0) ^ (a << 1) }

  // ---- one bit at a time ----

  function Step(c: Reg): Reg { Reg(StepBv(c.w)) }
  function StepBv(c: bv32): bv32 { if c & 1 == 1 then (c >> 1) ^ POLY else c >> 1 }

  // The division: every bit of the message is added to the low end of the register.
  function BitCrc(bits: seq<bool>, c: Reg): Reg
  {
    if bits == [] then c else BitCrc(bits[1..], Step(Xor(c, Push(bits[0], Zero()))))
  }

  // The checksum of a byte string.
  function Crc(data: seq<byte>, seed: Reg): Reg { BitCrc(Stream(data), seed) }

  // ---- crc32table ----

  const Row0: seq<bv32> :=
    [0x00000000, 0x77073096, 0xEE0E612C, 0x990951BA, 0x076DC419, 0x706AF48F, 0xE963A535, 0x9E6495A3,
    0x0EDB8832, 0x79DCB8A4, 0xE0D5E91E, 0x97D2D988, 0x09B64C2B, 0x7EB17CBD, 0xE7B82D07, 0x90BF1D91]
  const Row1: seq<bv32> :=
    [0x1DB71064, 0x6AB020F2, 0xF3B97148, 0x84BE41DE, 0x1ADAD47D, 0x6DDDE4EB, 0xF4D4B551, 0x83D385C7,
    0x136C9856, 0x646BA8C0, 0xFD62F97A, 0x8A65C9EC, 0x14015C4F, 0x63066CD9, 0xFA0F3D63, 0x8D080DF5]
  const Row2: seq<bv32> :=
    [0x3B6E20C8, 0x4C69105E, 0xD56041E4, 0xA2677172, 0x3C03E4D1, 0x4B04D447, 0xD20D85FD, 0xA50AB56B,
    0x35B5A8FA, 0x42B2986C, 0xDBBBC9D6, 0xACBCF940, 0x32D86CE3, 0x45DF5C75, 0xDCD60DCF, 0xABD13D59]
  const Row3: seq<bv32> :=
    [0x26D930AC, 0x51DE003A, 0xC8D75180, 0xBFD06116, 0x21B4F4B5, 0x56B3C423, 0xCFBA9599, 0xB8BDA50F,
    0x2802B89E, 0x5F058808, 0xC60CD9B2, 0xB10BE924, 0x2F6F7C87, 0x58684C11, 0xC1611DAB, 0xB6662D3D]
  const Row4: seq<bv32> :=
    [0x76DC4190, 0x01DB7106, 0x98D220BC, 0xEFD5102A, 0x71B18589, 0x06B6B51F, 0x9FBFE4A5, 0xE8B8D433,
    0x7807C9A2, 0x0F00F934, 0x9609A88E, 0xE10E9818, 0x7F6A0DBB, 0x086D3D2D, 0x91646C97, 0xE6635C01]
  const Row5: seq<bv32> :=
    [0x6B6B51F4, 0x1C6C6162, 0x856530D8, 0xF262004E, 0x6C0695ED, 0x1B01A57B, 0x8208F4C1, 0xF50FC457,
    0x65B0D9C6, 0x12B7E950, 0x8BBEB8EA, 0xFCB9887C, 0x62DD1DDF, 0x15DA2D49, 0x8CD37CF3, 0xFBD44C65]
  const Row6: seq<bv32> :=
    [0x4DB26158, 0x3AB551CE, 0xA3BC0074, 0xD4BB30E2, 0x4ADFA541, 0x3DD895D7, 0xA4D1C46D, 0xD3D6F4FB,
    0x4369E96A, 0x346ED9FC, 0xAD678846, 0xDA60B8D0, 0x44042D73, 0x33031DE5, 0xAA0A4C5F, 0xDD0D7CC9]
  const Row7: seq<bv32> :=
    [0x5005713C, 0x270241AA, 0xBE0B1010, 0xC90C2086, 0x5768B525, 0x206F85B3, 0xB966D409, 0xCE61E49F,
    0x5EDEF90E, 0x29D9C998, 0xB0D09822, 0xC7D7A8B4, 0x59B33D17, 0x2EB40D81, 0xB7BD5C3B, 0xC0BA6CAD]
  const Row8: seq<bv32> :=
    [0xEDB88320, 0x9ABFB3B6, 0x03B6E20C, 0x74B1D29A, 0xEAD54739, 0x9DD277AF, 0x04DB2615, 0x73DC1683,
    0xE3630B12, 0x94643B84, 0x0D6D6A3E, 0x7A6A5AA8, 0xE40ECF0B, 0x9309FF9D, 0x0A00AE27, 0x7D079EB1]
  const Row9: seq<bv32> :=
    [0xF00F9344, 0x8708A3D2, 0x1E01F268, 0x6906C2FE, 0xF762575D, 0x806567CB, 0x196C3671, 0x6E6B06E7,
    0xFED41B76, 0x89D32BE0, 0x10DA7A5A, 0x67DD4ACC, 0xF9B9DF6F, 0x8EBEEFF9, 0x17B7BE43, 0x60B08ED5]
  const Row10: seq<bv32> :=
    [0xD6D6A3E8, 0xA1D1937E, 0x38D8C2C4, 0x4FDFF252, 0xD1BB67F1, 0xA6BC5767, 0x3FB506DD, 0x48B2364B,
    0xD80D2BDA, 0xAF0A1B4C, 0x36034AF6, 0x41047A60, 0xDF60EFC3, 0xA867DF55, 0x316E8EEF, 0x4669BE79]
  const Row11: seq<bv32> :=
    [0xCB61B38C, 0xBC66831A, 0x256FD2A0, 0x5268E236, 0xCC0C7795, 0xBB0B4703, 0x220216B9, 0x5505262F,
    0xC5BA3BBE, 0xB2BD0B28, 0x2BB45A92, 0x5CB36A04, 0xC2D7FFA7, 0xB5D0CF31, 0x2CD99E8B, 0x5BDEAE1D]
  const Row12: seq<bv32> :=
    [0x9B64C2B0, 0xEC63F226, 0x756AA39C, 0x026D930A, 0x9C0906A9, 0xEB0E363F, 0x72076785, 0x05005713,
    0x95BF4A82, 0xE2B87A14, 0x7BB12BAE, 0x0CB61B38, 0x92D28E9B, 0xE5D5BE0D, 0x7CDCEFB7, 0x0BDBDF21]
  const Row13: seq<bv32> :=
    [0x86D3D2D4, 0xF1D4E242, 0x68DDB3F8, 0x1FDA836E, 0x81BE16CD, 0xF6B9265B, 0x6FB077E1, 0x18B74777,
    0x88085AE6, 0xFF0F6A70, 0x66063BCA, 0x11010B5C, 0x8F659EFF, 0xF862AE69, 0x616BFFD3, 0x166CCF45]
  const Row14: seq<bv32> :=
    [0xA00AE278, 0xD70DD2EE, 0x4E048354, 0x3903B3C2, 0xA7672661, 0xD06016F7, 0x4969474D, 0x3E6E77DB,
    0xAED16A4A, 0xD9D65ADC, 0x40DF0B66, 0x37D83BF0, 0xA9BCAE53, 0xDEBB9EC5, 0x47B2CF7F, 0x30B5FFE9]
  const Row15: seq<bv32> :=
    [0xBDBDF21C, 0xCABAC28A, 0x53B39330, 0x24B4A3A6, 0xBAD03605, 0xCDD70693, 0x54DE5729, 0x23D967BF,
    0xB3667A2E, 0xC4614AB8, 0x5D681B02, 0x2A6F2B94, 0xB40BBE37, 0xC30C8EA1, 0x5A05DF1B, 0x2D02EF8D]

  function Row(r: nat): seq<bv32>
    requires r < 16
  {
    if r == 0 then Row0 else
    if r == 1 then Row1 else
    if r == 2 then Row2 else
    if r == 3 then Row3 else
    if r == 4 then Row4 else
    if r == 5 then Row5 else
    if r == 6 then Row6 else
    if r == 7 then Row7 else
    if r == 8 then Row8 else
    if r == 9 then Row9 else
    if r == 10 then Row10 else
    if r == 11 then Row11 else
    if r == 12 then Row12 else
    if r == 13 then Row13 else
    if r == 14 then Row14 else Row15
  }

  lemma RowSize(r: nat)
    requires r < 16
    ensures |Row(r)| == 16
  {
  }

  function Table(i: nat): Reg
    requires i < 256
  {
    RowSize(i / 16);
    Reg(Row(i / 16)[i % 16])
  }

  // A step of an even entry gives the entry of half its index; an odd entry adds the one of 1.
  predicate HalfEntry(half: bv32, even: bv32, odd: bv32)
  {
    StepBv(even) == half && odd == XorBv(even, 0x77073096)
  }

  // A row against the eight entries it is twice as far as.
  predicate Halves(half: seq<bv32>, o: nat, row: seq<bv32>)
  {
    && o + 8 <= |half| == |row| == 16
    && HalfEntry(half[o + 0], row[0], row[1])
    && HalfEntry(half[o + 1], row[2], row[3])
    && HalfEntry(half[o + 2], row[4], row[5])
    && HalfEntry(half[o + 3], row[6], row[7])
    && HalfEntry(half[o + 4], row[8], row[9])
    && HalfEntry(half[o + 5], row[10], row[11])
    && HalfEntry(half[o + 6], row[12], row[13])
    && HalfEntry(half[o + 7], row[14], row[15])
  }

  lemma Half0() ensures Halves(Row0, 0, Row0) {}
  lemma Half1() ensures Halves(Row0, 8, Row1) {}
  lemma Half2() ensures Halves(Row1, 0, Row2) {}
  lemma Half3() ensures Halves(Row1, 8, Row3) {}
  lemma Half4() ensures Halves(Row2, 0, Row4) {}
  lemma Half5() ensures Halves(Row2, 8, Row5) {}
  lemma Half6() ensures Halves(Row3, 0, Row6) {}
  lemma Half7() ensures Halves(Row3, 8, Row7) {}
  lemma Half8() ensures Halves(Row4, 0, Row8) {}
  lemma Half9() ensures Halves(Row4, 8, Row9) {}
  lemma Half10() ensures Halves(Row5, 0, Row10) {}
  lemma Half11() ensures Halves(Row5, 8, Row11) {}
  lemma Half12() ensures Halves(Row6, 0, Row12) {}
  lemma Half13() ensures Halves(Row6, 8, Row13) {}
  lemma Half14() ensures Halves(Row7, 0, Row14) {}
  lemma Half15() ensures Halves(Row7, 8, Row15) {}

  lemma RowHalves(r: nat)
    requires r < 16
    ensures Halves(Row(r / 2), 8 * (r % 2), Row(r))
  {
    hide Halves, Row0, Row1, Row2, Row3, Row4, Row5, Row6, Row7, Row8, Row9, Row10, Row11, Row12, Row13, Row14, Row15;
    if r == 0 { Half0(); }
    if r == 1 { Half1(); }
    if r == 2 { Half2(); }
    if r == 3 { Half3(); }
    if r == 4 { Half4(); }
    if r == 5 { Half5(); }
    if r == 6 { Half6(); }
    if r == 7 { Half7(); }
    if r == 8 { Half8(); }
    if r == 9 { Half9(); }
    if r == 10 { Half10(); }
    if r == 11 { Half11(); }
    if r == 12 { Half12(); }
    if r == 13 { Half13(); }
    if r == 14 { Half14(); }
    if r == 15 { Half15(); }
  }

  lemma HalvesAt(half: seq<bv32>, o: nat, row: seq<bv32>, k: nat)
    requires Halves(half, o, row) && k < 8
    ensures HalfEntry(half[o + k], row[2 * k], row[2 * k + 1])
  {
    hide HalfEntry, StepBv, XorBv;
  }

  // The whole table obeys the recurrence.
  lemma TableHalves(j: nat)
    requires j < 128
    ensures Step(Table(2 * j)) == Table(j) && Table(2 * j + 1) == Xor(Table(2 * j), Table(1))
  {
    hide Halves, Row, StepBv, XorBv;
    var r, k := j / 8, j % 8;
    RowSize(r);
    RowSize(r / 2);
    RowHalves(r);
    HalvesAt(Row(r / 2), 8 * (r % 2), Row(r), k);
    assert j / 16 == r / 2 && j % 16 == 8 * (r % 2) + k;
    assert (2 * j) / 16 == r && (2 * j) % 16 == 2 * k && (2 * j + 1) / 16 == r && (2 * j + 1) % 16 == 2 * k + 1;
    EntryOne();
  }

  lemma EntryOne()
    ensures Table(1) == Reg(0x77073096) && Table(0) == Zero()
  {
    RowZero();
    assert Row0[1] == 0x77073096 && Row0[0] == 0;
  }

  lemma RowZero()
    ensures Row(0) == Row0
  {
  }

  // ---- laws of the operations ----

  lemma XorLaws(a: Reg, b: Reg, c: Reg)
    ensures Xor(a, b) == Xor(b, a) && Xor(Xor(a, b), c) == Xor(a, Xor(b, c)) && Xor(a, Zero()) == a
    ensures Xor(a, c) == Xor(b, c) ==> a == b
    ensures Xor(c, a) == Xor(c, b) ==> a == b
  {
    hide XorBv;
    XorSwap(a.w, b.w);
    XorGroup(a.w, b.w, c.w);
    XorZero(a.w);
    XorSwap(a.w, c.w);
    XorSwap(b.w, c.w);
    if XorBv(a.w, c.w) == XorBv(b.w, c.w) { XorCancel(a.w, b.w, c.w); }
  }

  lemma XorSwap(a: bv32, b: bv32) ensures XorBv(a, b) == XorBv(b, a) {}
  lemma XorGroup(a: bv32, b: bv32, c: bv32) ensures XorBv(XorBv(a, b), c) == XorBv(a, XorBv(b, c)) {}
  lemma XorZero(a: bv32) ensures XorBv(a, 0) == a {}
  lemma XorCancel(a: bv32, b: bv32, c: bv32) requires XorBv(a, c) == XorBv(b, c) ensures a == b {}
  lemma ShrXor(a: bv32, b: bv32) ensures (a ^ b) >> 1 == (a >> 1) ^ (b >> 1) {}
  lemma LowXor(a: bv32, b: bv32) ensures (a ^ b) & 1 == (a & 1) ^ (b & 1) && (a & 1 == 0 || a & 1 == 1) {}
  lemma XorMoves(a: bv32, b: bv32, p: bv32) ensures (a ^ b) ^ p == (a ^ p) ^ b == a ^ (b ^ p) && (a ^ p) ^ (b ^ p) ==
                 a ^ b {}

  lemma StepXorBv(a: bv32, b: bv32)
    ensures StepBv(a ^ b) == StepBv(a) ^ StepBv(b)
  {
    ShrXor(a, b);
    LowXor(a, b);
    LowXor(b, a);
    XorMoves(a >> 1, b >> 1, POLY);
    if a & 1 == 1 {
      if b & 1 == 1 {} else {}
    } else {
      if b & 1 == 1 {} else {}
    }
  }

  lemma XorStep(a: bv32, b: bv32)
    ensures StepBv(XorBv(a, b)) == XorBv(StepBv(a), StepBv(b))
  {
    hide StepBv;
    StepXorBv(a, b);
  }

  lemma StepInjectiveBv(a: bv32, b: bv32)
    requires StepBv(a) == StepBv(b)
    ensures a == b
  {
  }

  // The step is linear and loses nothing.
  lemma StepXor(a: Reg, b: Reg)
    ensures Step(Xor(a, b)) == Xor(Step(a), Step(b))
  {
    hide XorBv, StepBv;
    XorStep(a.w, b.w);
  }

  lemma StepInjective(a: Reg, b: Reg)
    requires Step(a) == Step(b)
    ensures a == b
  {
    hide StepBv;
    StepInjectiveBv(a.w, b.w);
  }

  // ---- many steps ----

  function Steps(c: Reg, k: nat): Reg
    decreases k
  {
    if k == 0 then c else Steps(Step(c), k - 1)
  }

  lemma {:induction false} StepsXor(a: Reg, b: Reg, k: nat)
    ensures Steps(Xor(a, b), k) == Xor(Steps(a, k), Steps(b, k))
    decreases k
  {
    hide Step, Xor;
    if k > 0 {
      StepXor(a, b);
      StepsXor(Step(a), Step(b), k - 1);
    }
  }

  lemma {:induction false} StepsInjective(a: Reg, b: Reg, k: nat)
    requires Steps(a, k) == Steps(b, k)
    ensures a == b
    decreases k
  {
    hide Step;
    if k > 0 {
      StepsInjective(Step(a), Step(b), k - 1);
      StepInjective(a, b);
    }
  }

  lemma {:induction false} StepsLast(c: Reg, k: nat)
    ensures Steps(c, k + 1) == Step(Steps(c, k))
    decreases k
  {
    hide Step;
    if k > 0 { StepsLast(Step(c), k - 1); }
  }

  // ---- registers and bits ----

  // Bits as a register, first bit lowest.
  function W(s: seq<bool>): Reg { if s == [] then Zero() else Push(s[0], W(s[1..])) }

  // The low n bits of a register.
  function BitsOf(a: Reg, n: nat): (s: seq<bool>)
    ensures |s| == n
    decreases n
  {
    if n == 0 then [] else [Odd(a)] + BitsOf(Half(a), n - 1)
  }

  // A number as a register.
  function ToReg(n: nat): Reg { if n == 0 then Zero() else Push(n % 2 == 1, ToReg(n / 2)) }

  // (w & 0xff) as a table index.
  function Index(a: Reg): nat { Num(BitsOf(a, 8)) }

  // The highest bit is clear, so that a bit can be pushed without losing one.
  predicate Roomy(a: Reg) { a.w & 0x80000000 == 0 }

  lemma PushHalf(b: bool, a: bv32) requires a & 0x80000000 == 0 ensures HalfBv(PushBv(b, a)) == a {}
  lemma PushOdd(b: bool, a: bv32) ensures OddBv(PushBv(b, a)) == b {}
  lemma HalfRoomy(a: bv32) ensures HalfBv(a) & 0x80000000 == 0 {}
  lemma HalfPush(a: bv32) ensures PushBv(OddBv(a), HalfBv(a)) == a {}
  lemma PushZero() ensures PushBv(false, 0) == 0 && HalfBv(0) == 0 && !OddBv(0) {}
  lemma PushSplit(b: bool, a: bv32) ensures PushBv(b, a) == XorBv(PushBv(b, 0), PushBv(false, a)) {}
  lemma EvenStep(a: bv32) requires !OddBv(a) ensures StepBv(a) == HalfBv(a) {}
  lemma HalfXor(a: bv32, b: bv32) ensures HalfBv(XorBv(a, b)) == XorBv(HalfBv(a), HalfBv(b)) {}
  lemma OddXor(a: bv32, b: bv32) ensures OddBv(XorBv(a, b)) == (OddBv(a) != OddBv(b)) {}

  lemma PushLaws(b: bool, a: Reg)
    ensures Roomy(a) ==> Half(Push(b, a)) == a
    ensures Odd(Push(b, a)) == b
    ensures Roomy(Half(a)) && Push(Odd(a), Half(a)) == a
    ensures Push(false, Zero()) == Zero()
    ensures Push(b, a) == Xor(Push(b, Zero()), Push(false, a))
  {
    hide XorBv, PushBv, HalfBv, OddBv;
    if Roomy(a) { PushHalf(b, a.w); }
    PushOdd(b, a.w);
    HalfRoomy(a.w);
    HalfPush(a.w);
    PushZero();
    PushSplit(b, a.w);
  }

  lemma HalfLaws(a: Reg, b: Reg)
    ensures Half(Xor(a, b)) == Xor(Half(a), Half(b))
    ensures !Odd(a) ==> Step(a) == Half(a)
    ensures Odd(Xor(a, b)) == (Odd(a) != Odd(b))
    ensures Half(Zero()) == Zero() && !Odd(Zero())
  {
    hide XorBv, PushBv, HalfBv, OddBv, StepBv;
    HalfXor(a.w, b.w);
    OddXor(a.w, b.w);
    PushZero();
    if !Odd(a) { EvenStep(a.w); }
  }

  // ---- how many bits a register uses ----

  function Mask(n: nat): Reg { if n == 0 then Zero() else Push(true, Mask(n - 1)) }

  predicate WithinBv(a: bv32, m: bv32) { a & !m == 0 }

  // Only the bits of m are set.
  predicate Within(a: Reg, m: Reg) { WithinBv(a.w, m.w) }

  lemma WithinPush(b: bool, a: bv32, m: bv32) requires WithinBv(a, m) ensures WithinBv(PushBv(b, a), PushBv(true, m)) {}
  lemma WithinTop(a: bv32, m: bv32) requires WithinBv(a, m) && WithinBv(m, 0x7FFFFFFF) ensures a & 0x80000000 == 0 {}
  lemma WithinZero(m: bv32) ensures WithinBv(0, m) {}

  lemma {:induction false} MaskMono(a: nat, b: nat)
    requires a <= b
    ensures Within(Mask(a), Mask(b))
  {
    hide WithinBv, PushBv;
    if a == 0 {
      WithinZero(Mask(b).w);
    } else {
      MaskMono(a - 1, b - 1);
      WithinPush(true, Mask(a - 1).w, Mask(b - 1).w);
    }
  }

  lemma MaskTop()
    ensures Mask(31) == Reg(0x7FFFFFFF)
  {
    assert Mask(4) == Reg(0xF);
    assert Mask(8) == Reg(0xFF);
    assert Mask(12) == Reg(0xFFF);
    assert Mask(16) == Reg(0xFFFF);
    assert Mask(20) == Reg(0xFFFFF);
    assert Mask(24) == Reg(0xFFFFFF);
    assert Mask(28) == Reg(0xFFFFFFF);
  }

  lemma RoomyWithin(a: Reg, n: nat)
    requires n <= 31 && Within(a, Mask(n))
    ensures Roomy(a)
  {
    hide WithinBv, Mask, PushBv;
    MaskMono(n, 31);
    MaskTop();
    WithinTop(a.w, Mask(n).w);
  }

  lemma {:induction false} WWithin(s: seq<bool>)
    ensures Within(W(s), Mask(|s|))
  {
    hide WithinBv, PushBv;
    if s == [] {
      WithinZero(Mask(0).w);
    } else {
      WWithin(s[1..]);
      WithinPush(s[0], W(s[1..]).w, Mask(|s| - 1).w);
    }
  }

  lemma WRoomy(s: seq<bool>)
    requires |s| <= 31
    ensures Roomy(W(s))
  {
    hide Within, Roomy, W, Mask;
    WWithin(s);
    RoomyWithin(W(s), |s|);
  }

  // A register holds 32 bits.
  lemma {:induction false} BitsOfW(s: seq<bool>)
    requires |s| <= 32
    ensures BitsOf(W(s), |s|) == s
  {
    hide Push, Half, Odd, Roomy, Xor;
    if s != [] {
      BitsOfW(s[1..]);
      WRoomy(s[1..]);
      PushLaws(s[0], W(s[1..]));
      assert s == [s[0]] + s[1..];
    }
  }

  lemma {:induction false} ToRegNum(s: seq<bool>)
    ensures ToReg(Num(s)) == W(s)
  {
    hide Push, Half, Odd, Roomy, Xor;
    if s != [] {
      ToRegNum(s[1..]);
      PushLaws(false, Zero());
    }
  }

  // ---- up to 32 bits at once ----

  lemma StepPush(c: Reg, b: bool, a: Reg)
    requires Roomy(a)
    ensures Step(Xor(c, Push(b, a))) == Xor(Step(Xor(c, Push(b, Zero()))), a)
  {
    hide Push, Half, Odd, Roomy, Xor, Step;
    PushLaws(b, a);
    PushLaws(false, a);
    XorLaws(c, Push(b, Zero()), Push(false, a));
    StepXor(Xor(c, Push(b, Zero())), Push(false, a));
    HalfLaws(Push(false, a), a);
  }

  // Up to 32 bits can be added to the register before stepping.
  lemma {:induction false} AtOnce(s: seq<bool>, c: Reg)
    requires |s| <= 32
    ensures BitCrc(s, c) == Steps(Xor(c, W(s)), |s|)
  {
    hide Push, Half, Odd, Roomy, Xor, Step;
    if s == [] {
      XorLaws(c, c, c);
    } else {
      AtOnce(s[1..], Step(Xor(c, Push(s[0], Zero()))));
      WRoomy(s[1..]);
      StepPush(c, s[0], W(s[1..]));
    }
  }

  lemma {:induction false} BitCrcAppend(a: seq<bool>, b: seq<bool>, c: Reg)
    ensures BitCrc(a + b, c) == BitCrc(b, BitCrc(a, c))
  {
    hide Push, Xor, Step;
    if a == [] {
      assert a + b == b;
    } else {
      assert (a + b)[1..] == a[1..] + b && (a + b)[0] == a[0];
      BitCrcAppend(a[1..], b, Step(Xor(c, Push(a[0], Zero()))));
    }
  }

  // Different registers stay different.
  lemma {:induction false} BitCrcInjective(s: seq<bool>, c: Reg, d: Reg)
    requires BitCrc(s, c) == BitCrc(s, d)
    ensures c == d
  {
    hide Push, Xor, Step;
    if s != [] {
      var b := Push(s[0], Zero());
      BitCrcInjective(s[1..], Step(Xor(c, b)), Step(Xor(d, b)));
      StepInjective(Xor(c, b), Xor(d, b));
      XorLaws(c, d, b);
    }
  }

  // Two messages that differ only inside 32 consecutive bits have different checksums.
  lemma BurstDetected(p: seq<bool>, s: seq<bool>, t: seq<bool>, q: seq<bool>, seed: Reg)
    requires |s| == |t| <= 32 && s != t
    ensures BitCrc(p + s + q, seed) != BitCrc(p + t + q, seed)
  {
    hide BitCrc, Steps, Step, W, Xor, BitsOf;
    var c := BitCrc(p, seed);
    BitCrcAppend(p + s, q, seed);
    BitCrcAppend(p, s, seed);
    BitCrcAppend(p + t, q, seed);
    BitCrcAppend(p, t, seed);
    if BitCrc(p + s + q, seed) == BitCrc(p + t + q, seed) {
      BitCrcInjective(q, BitCrc(s, c), BitCrc(t, c));
      AtOnce(s, c);
      AtOnce(t, c);
      StepsInjective(Xor(c, W(s)), Xor(c, W(t)), |s|);
      XorLaws(W(s), W(t), c);
      BitsOfW(s);
      BitsOfW(t);
    }
  }

  // ---- eight bits through the table ----

  // a >> n
  function HalfN(a: Reg, n: nat): Reg
    decreases n
  {
    if n == 0 then a else HalfN(Half(a), n - 1)
  }

  // Stepping n times shifts the high part and transforms the low n bits only.
  lemma {:induction false} SplitSteps(a: Reg, n: nat)
    requires n <= 32
    ensures Steps(a, n) == Xor(HalfN(a, n), Steps(W(BitsOf(a, n)), n))
    decreases n
  {
    hide Push, Half, Odd, Roomy, Xor, Step, Zero;
    if n == 0 {
      XorLaws(a, a, a);
    } else {
      var h, t := Half(a), BitsOf(Half(a), n - 1);
      var e := Step(Push(Odd(a), Zero()));
      PushLaws(Odd(a), a);
      ZeroLeft(Push(Odd(a), h));
      ZeroLeft(Push(Odd(a), Zero()));
      StepPush(Zero(), Odd(a), h);
      SplitSteps(h, n - 1);
      StepsXor(e, h, n - 1);
      WRoomy(t);
      assert BitsOf(a, n) == [Odd(a)] + t && ([Odd(a)] + t)[1..] == t;
      ZeroLeft(Push(Odd(a), W(t)));
      StepPush(Zero(), Odd(a), W(t));
      StepsXor(e, W(t), n - 1);
      Rearrange(Steps(e, n - 1), HalfN(h, n - 1), Steps(W(t), n - 1));
    }
  }

  lemma ZeroLeft(a: Reg)
    ensures Xor(Zero(), a) == a
  {
    hide Xor, Zero;
    XorLaws(a, Zero(), a);
  }

  lemma Rearrange(a: Reg, b: Reg, c: Reg)
    ensures Xor(a, Xor(b, c)) == Xor(b, Xor(a, c))
  {
    hide Xor;
    XorLaws(a, b, c);
    XorLaws(b, a, c);
  }

  lemma {:induction false} HalfNXor(a: Reg, b: Reg, n: nat)
    ensures HalfN(Xor(a, b), n) == Xor(HalfN(a, n), HalfN(b, n))
    decreases n
  {
    hide Half, Odd, Xor, Step;
    if n > 0 {
      HalfLaws(a, b);
      HalfNXor(Half(a), Half(b), n - 1);
    }
  }

  lemma {:induction false} HalfNW(s: seq<bool>)
    requires |s| <= 32
    ensures HalfN(W(s), |s|) == Zero()
  {
    hide Push, Half, Odd, Roomy, Xor;
    if s != [] {
      WRoomy(s[1..]);
      PushLaws(s[0], W(s[1..]));
      HalfNW(s[1..]);
    }
  }

  lemma {:induction false} StepsZero(k: nat)
    ensures Steps(Zero(), k) == Zero()
  {
    hide Half, Odd, Xor, Step, Zero;
    if k > 0 {
      HalfLaws(Zero(), Zero());
      StepsZero(k - 1);
    }
  }

  lemma {:induction false} ToRegWithin(n: nat, k: nat)
    requires n < Pow2(k)
    ensures Within(ToReg(n), Mask(k))
    decreases k
  {
    hide WithinBv, PushBv;
    if n == 0 {
      WithinZero(Mask(k).w);
    } else {
      ToRegWithin(n / 2, k - 1);
      WithinPush(n % 2 == 1, ToReg(n / 2).w, Mask(k - 1).w);
    }
  }

  lemma ToRegRoomy(j: nat)
    requires j < 128
    ensures Roomy(ToReg(j))
  {
    hide Within, Roomy, Mask, ToReg;
    SmallPowers();
    ToRegWithin(j, 7);
    RoomyWithin(ToReg(j), 7);
  }

  lemma StepsOne()
    ensures Steps(ToReg(1), 8) == Table(1)
  {
    EntryOne();
    assert ToReg(1) == Reg(1);
  }

  lemma ToRegTwice(j: nat)
    ensures ToReg(2 * j) == Push(false, ToReg(j))
    ensures ToReg(2 * j + 1) == Xor(ToReg(1), ToReg(2 * j))
  {
    hide Push, Half, Odd, Xor, Roomy;
    PushLaws(true, ToReg(j));
    PushLaws(false, Zero());
    assert (2 * j) / 2 == j && (2 * j + 1) / 2 == j;
    assert ToReg(1) == Push(true, ToReg(0));
  }

  lemma StepToReg(j: nat)
    requires j < 128
    ensures Step(ToReg(2 * j)) == ToReg(j)
  {
    hide Push, Half, Odd, Xor, Roomy, Step, ToReg;
    ToRegTwice(j);
    ToRegRoomy(j);
    PushLaws(false, ToReg(j));
    HalfLaws(ToReg(2 * j), Zero());
  }

  // Every entry is its index stepped eight times.
  lemma {:induction false} TableIs(i: nat)
    requires i < 256
    ensures Table(i) == Steps(ToReg(i), 8)
  {
    hide Table, Steps, Step, ToReg, Xor;
    if i == 0 {
      EntryOne();
      ToRegNum([]);
      StepsZero(8);
    } else if i == 1 {
      StepsOne();
    } else {
      var j := i / 2;
      TableIs(j);
      TableHalves(j);
      StepsLast(ToReg(2 * j), 8);
      StepsFirst(ToReg(2 * j), 8);
      StepToReg(j);
      StepInjective(Table(2 * j), Steps(ToReg(2 * j), 8));
      if i == 2 * j + 1 {
        ToRegTwice(j);
        StepsXor(ToReg(1), ToReg(2 * j), 8);
        StepsOne();
        XorLaws(Table(1), Table(2 * j), Table(1));
      }
    }
  }

  lemma StepsFirst(c: Reg, k: nat)
    ensures Steps(c, k + 1) == Steps(Step(c), k)
  {
  }

  lemma IndexRange(a: Reg)
    ensures Index(a) < 256
  {
    NumBound(BitsOf(a, 8));
    SmallPowers();
  }

  // One turn of the byte loop is eight bits of the division.
  lemma ByteStep(s: seq<bool>, c: Reg)
    requires |s| == 8
    ensures var y := Xor(c, W(s));
            Index(y) < 256 && Xor(HalfN(c, 8), Table(Index(y))) == BitCrc(s, c)
  {
    hide Table, Steps, BitCrc, Xor, HalfN, W, ToReg, BitsOf, Num;
    var y := Xor(c, W(s));
    IndexRange(y);
    AtOnce(s, c);
    SplitSteps(y, 8);
    HalfNXor(c, W(s), 8);
    HalfNW(s);
    XorLaws(HalfN(c, 8), c, c);
    TableIs(Index(y));
    ToRegNum(BitsOf(y, 8));
  }

  // (crc >> 8) & 0x00FFFFFF
  function ShiftByte(c: Reg): Reg { Reg((c.w >> 8) & 0x00FFFFFF) }

  lemma HalfNEight(c: Reg)
    ensures HalfN(c, 8) == ShiftByte(c)
  {
    hide HalfBv;
    HalvesBv(c.w);
    HalfNUnroll(c);
  }

  lemma HalvesBv(a: bv32)
    ensures HalfBv(HalfBv(HalfBv(HalfBv(HalfBv(HalfBv(HalfBv(HalfBv(a)))))))) == (a >> 8) & 0x00FFFFFF
  {
  }

  lemma HalfNUnroll(c: Reg)
    ensures HalfN(c, 8) == Half(Half(Half(Half(Half(Half(Half(Half(c))))))))
  {
    hide Half;
  }

  // crc32, over the size bytes at address.
  method TableCrc(data: seq<byte>, seed: Reg) returns (crc: Reg)
    ensures crc == Crc(data, seed)
  {
    hide Stream, BitCrc, Xor, Table, Index, ToReg, ShiftByte, W;
    crc := seed;
    NoBits(seed);
    var i := 0;
    while i < |data|
      invariant 0 <= i <= |data| && crc == BitCrc(Stream(data)[..8 * i], seed)
    {
      ghost var s := Stream(data)[8 * i..8 * i + 8];
      StreamByte(data, i);
      ToRegNum(s);
      ByteStep(s, crc);
      HalfNEight(crc);
      BitCrcAppend(Stream(data)[..8 * i], s, seed);
      assert Stream(data)[..8 * (i + 1)] == Stream(data)[..8 * i] + s;
      crc := Xor(ShiftByte(crc), Table(Index(Xor(crc, ToReg(data[i])))));
      i := i + 1;
    }
    assert Stream(data)[..8 * i] == Stream(data);
  }

  lemma NoBits(c: Reg)
    ensures BitCrc([], c) == c
  {
  }

  // ---- byte strings ----

  // The checksum composes over concatenation.
  lemma CrcAppend(a: seq<byte>, b: seq<byte>, seed: Reg)
    ensures Crc(a + b, seed) == Crc(b, Crc(a, seed))
  {
    hide Stream, BitCrc;
    var s := Stream(a + b);
    StreamCut(a + b, |a|);
    assert (a + b)[..|a|] == a && (a + b)[|a|..] == b;
    assert s == s[..8 * |a|] + s[8 * |a|..];
    BitCrcAppend(s[..8 * |a|], s[8 * |a|..], seed);
  }

  lemma StreamInjective(a: seq<byte>, b: seq<byte>)
    requires |a| == |b| && Stream(a) == Stream(b)
    ensures a == b
  {
    hide Stream, Num;
    forall i | 0 <= i < |a| ensures a[i] == b[i] {
      StreamByte(a, i);
      StreamByte(b, i);
    }
  }

  // Byte strings of equal length that differ only inside four consecutive bytes have
  // different checksums.
  lemma FourByteBurst(u: seq<byte>, v: seq<byte>, i: nat, n: nat, seed: Reg)
    requires |u| == |v| && i + n <= |u| && n <= 4 && u != v
    requires u[..i] == v[..i] && u[i + n..] == v[i + n..]
    ensures Crc(u, seed) != Crc(v, seed)
  {
    hide Stream, BitCrc;
    var a, b, k := u[i..i + n], v[i..i + n], i + n;
    assert u == u[..i] + a + u[k..] && v == v[..i] + b + v[k..];
    CrcAppend(u[..i] + a, u[k..], seed);
    CrcAppend(v[..i] + b, v[k..], seed);
    CrcAppend(u[..i], a, seed);
    CrcAppend(v[..i], b, seed);
    if Stream(a) == Stream(b) { StreamInjective(a, b); }
    var c := Crc(u[..i], seed);
    OnlyMiddle(Stream(a), Stream(b), c);
    if Crc(u, seed) == Crc(v, seed) { BitCrcInjective(Stream(u[k..]), Crc(a, c), Crc(b, c)); }
  }

  lemma OnlyMiddle(s: seq<bool>, t: seq<bool>, c: Reg)
    requires |s| == |t| <= 32 && s != t
    ensures BitCrc(s, c) != BitCrc(t, c)
  {
    hide BitCrc;
    BurstDetected([], s, t, [], c);
    assert [] + s + [] == s && [] + t + [] == t;
  }
}
