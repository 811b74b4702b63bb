// What happens when the output of loader/src/inflate.c reaches the compressed copy it is read
// from: a small member, made of one zero byte and many copies of it, inflates past the copy
// while most of it is still unread.
module Overrun {
  import opened Bits
  import opened Canonical
  import opened Deflate
  import opened FixedCodes
  import opened CodeTables
  import opened Window
  import opened BitReader
  import opened HuftStore
  import opened RamMemory
  import opened Pace
  import opened Inflate
  import opened Gzip
  import opened Image
  import opened Loader

  // ---- three codes of the fixed literal/length set, and one of the distance set ----

  function Falses(n: nat): seq<bool> { seq(n, _ => false) }

  function ZeroCode(): (s: seq<bool>) ensures |s| == 8 { Word(48, 8) }      // literal 0
  function LongCode(): (s: seq<bool>) ensures |s| == 8 { Word(197, 8) }     // length 258
  function EndCode(): (s: seq<bool>) ensures |s| == 7 { Falses(7) }
  function NearCode(): (s: seq<bool>) ensures |s| == 5 { Falses(5) }        // distance 1

  lemma TheCodes()
    ensures IsCode(FixedLit(), 0, ZeroCode()) && IsCode(FixedLit(), 285, LongCode())
            && IsCode(FixedLit(), 256, EndCode())
    ensures IsCode(FixedDist(), 0, NearCode())
  {
    hide CodeVal, Be, Word, FixedLit, FixedDist;
    SmallPowers();
    BeWord(48, 8);
    BeWord(197, 8);
    ZerosAreZero(EndCode());
    ZerosAreZero(NearCode());
    FixedCode(0);
    FixedCode(285);
    FixedCode(256);
    FixedDistCode(0);
  }

  // A code that comes next is what the reference decoder reads.
  lemma ReadsCode(lens: seq<nat>, sym: nat, word: seq<bool>, bits: seq<bool>, pos: nat)
    requires IsCode(lens, sym, word) && pos + |word| <= |bits| && bits[pos..pos + |word|] == word
    ensures Decode(lens, bits, pos) == Some(Decoded(sym, |word|))
  {
    hide Be, CodeVal;
    DecodeFinds(lens, bits, pos, 1, sym);
  }

  // ---- the stream ----

  function Zeros(n: nat): (s: seq<byte>) ensures |s| == n { seq(n, _ => 0) }

  // n times: copy 258 bytes from one byte back.
  function Matches(n: nat): (s: seq<bool>)
    ensures |s| == 13 * n
  {
    if n == 0 then [] else LongCode() + NearCode() + Matches(n - 1)
  }

  lemma {:induction false} ZerosCopied(k: nat, n: nat)
    requires k >= 1
    ensures LzCopy(Zeros(k), n, 1) == Zeros(k + n)
    decreases n
  {
    if n > 0 {
      assert Zeros(k) + [Zeros(k)[k - 1]] == Zeros(k + 1);
      ZerosCopied(k + 1, n - 1);
    }
  }

  // One match at pos.
  lemma OneMatch(bits: seq<bool>, pos: nat, k: nat)
    requires k >= 1 && pos + 13 <= |bits| && bits[pos..pos + 8] == LongCode() && bits[pos + 8..pos + 13] == NearCode()
    ensures CodeStep(FixedLit(), FixedDist(), bits, pos, Zeros(k)) == Next(pos + 13, Zeros(k + 258))
  {
    hide Decode, IsCode, FixedLit, FixedDist, LongCode, NearCode, LzCopy, Zeros, Num, LenBase, LenExtra, DistBase;
    hide DistExtra, Field;
    TheCodes();
    ReadsCode(FixedLit(), 285, LongCode(), bits, pos);
    ReadsCode(FixedDist(), 0, NearCode(), bits, pos + 8);
    LongestNearest();
    NoField(bits, pos + 8);
    NoField(bits, pos + 13);
    ZerosCopied(k, 258);
    ZerosSize(k);
    assert CodeStep(FixedLit(), FixedDist(), bits, pos, Zeros(k)) ==
        MatchStep(FixedDist(), bits, pos + 8, 28, Zeros(k));
    assert MatchStep(FixedDist(), bits, pos + 8, 28, Zeros(k)) ==
        DistanceStep(FixedDist(), bits, pos + 8, 258, Zeros(k));
  }

  lemma ZerosSize(k: nat)
    ensures |Zeros(k)| == k
  {
  }

  lemma LongestNearest()
    ensures LenBase()[28] == 258 && LenExtra()[28] == 0 && DistBase()[0] == 1 && DistExtra()[0] == 0
  {
  }

  lemma NoField(bits: seq<bool>, pos: nat)
    requires pos <= |bits|
    ensures Field(bits, pos, 0) == 0
  {
    assert bits[pos..pos] == [];
  }

  // A step and what follows it.
  lemma StepOn(bits: seq<bool>, pos: nat, out: seq<byte>)
    ensures var s := CodeStep(FixedLit(), FixedDist(), bits, pos, out);
            Codes(FixedLit(), FixedDist(), bits, pos, out) ==
              if s.Next? then Codes(FixedLit(), FixedDist(), bits, s.pos, s.out) else s.outcome
  {
  }

  // bits has Matches(n) at pos.
  lemma {:induction false} ManyMatches(bits: seq<bool>, pos: nat, n: nat, j: nat, k: nat)
    requires k >= 1 && j <= n && pos + 13 * n <= |bits| && bits[pos..pos + 13 * n] == Matches(n)
    ensures Codes(FixedLit(), FixedDist(), bits, pos, Zeros(k)) ==
            Codes(FixedLit(), FixedDist(), bits, pos + 13 * j, Zeros(k + 258 * j))
    decreases j
  {
    hide Codes, CodeStep, FixedLit, FixedDist, LongCode, NearCode, Zeros;
    if j > 0 {
      var m := bits[pos..pos + 13 * n];
      SliceTake(bits, pos, pos + 13 * n, 8);
      FirstMatch(n, m);
      SliceMiddle(bits, pos, 13 * n, 8, 13);
      OneMatch(bits, pos, k);
      StepOn(bits, pos, Zeros(k));
      SliceDrop(bits, pos, pos + 13 * n, 13);
      ManyMatches(bits, pos + 13, n - 1, j - 1, k + 258);
    }
  }

  lemma FirstMatch(n: nat, m: seq<bool>)
    requires n >= 1 && m == Matches(n)
    ensures m[..8] == LongCode() && m[8..13] == NearCode() && m[13..] == Matches(n - 1)
  {
  }

  lemma SliceMiddle(s: seq<bool>, a: nat, n: nat, i: nat, j: nat)
    requires a + n <= |s| && i <= j <= n
    ensures s[a..a + n][i..j] == s[a + i..a + j]
  {
    SliceTake(s, a, a + n, j);
    SliceDrop(s, a, a + j, i);
    assert s[a..a + n][i..j] == s[a..a + n][..j][i..];
  }

  // ---- a gzip member ----

  // One final block with the fixed codes: a zero byte, n matches, the end.
  function BlockBits(n: nat): (s: seq<bool>)
    ensures |s| == 24 + 13 * n
  {
    [true, true, false] + ZeroCode() + Matches(n) + EndCode() + Falses(6)
  }

  const PlainHeader := Header(0x8b, false, [0, 0, 0, 0, 0, 0], None, None, None)

  lemma PlainSize()
    ensures WellFormed(PlainHeader) && |HeaderBytes(PlainHeader)| == 10
  {
  }

  function Member(n: nat): seq<byte>
  {
    PlainSize();
    HeaderBytes(PlainHeader) + Pack(BlockBits(n)) + Zeros(8)
  }

  function DataEnd(n: nat): nat { 104 + 13 * n }

  lemma MemberBits(n: nat)
    requires n % 8 == 0
    ensures |Member(n)| == 21 + 13 * n / 8 && DataEnd(n) + 24 <= 8 * |Member(n)|
    ensures Stream(Member(n))[..DataEnd(n)][80..] == BlockBits(n)
  {
    hide Stream, BlockBits, HeaderBytes, Zeros, Pack;
    PlainSize();
    ZerosSize(8);
    StreamPack(BlockBits(n));
    MiddleBits(HeaderBytes(PlainHeader), Pack(BlockBits(n)), Zeros(8));
  }

  lemma BlockParts(n: nat, b: seq<bool>)
    requires b == BlockBits(n)
    ensures b[0] && b[1..3] == [true, false] && b[3..11] == ZeroCode() && b[11..11 + 13 * n] == Matches(n)
    ensures b[11 + 13 * n..18 + 13 * n] == EndCode()
  {
    hide ZeroCode, EndCode, Matches;
    var h, r := [true, true, false] + ZeroCode(), EndCode() + Falses(6);
    assert b == h + Matches(n) + r;
  }

  // The same, in the bits of the member.
  lemma DataParts(n: nat, bits: seq<bool>)
    requires n % 8 == 0 && |bits| == DataEnd(n) && bits[80..] == BlockBits(n)
    ensures bits[80] && Field(bits, 81, 2) == 1 && bits[83..91] == ZeroCode()
    ensures bits[91..91 + 13 * n] == Matches(n) && bits[91 + 13 * n..98 + 13 * n] == EndCode()
  {
    hide ZeroCode, EndCode, Matches, BlockBits, Num;
    var b := bits[80..];
    BlockParts(n, b);
    assert bits[80..|bits|] == b;
    SliceMiddle(bits, 80, 24 + 13 * n, 1, 3);
    SliceMiddle(bits, 80, 24 + 13 * n, 3, 11);
    SliceMiddle(bits, 80, 24 + 13 * n, 11, 11 + 13 * n);
    SliceMiddle(bits, 80, 24 + 13 * n, 11 + 13 * n, 18 + 13 * n);
    TypeOne();
  }

  lemma TypeOne()
    ensures Num([true, false]) == 1
  {
    assert [true, false][1..] == [false] && [false][1..] == [];
    assert Num([false]) == 0;
  }

  // The reference decoder after j of the n matches.
  lemma AfterMatches(n: nat, j: nat)
    requires n % 8 == 0 && j <= n
    ensures DataEnd(n) <= 8 * |Member(n)|
    ensures var bits := Stream(Member(n))[..DataEnd(n)];
            Payload(Member(n), 10, DataEnd(n)) == Codes(FixedLit(), FixedDist(), bits, 91 + 13 * j, Zeros(1 + 258 * j))
  {
    hide Stream, Codes, CodeStep, ZeroCode, EndCode, Matches, BlockBits, Num, FixedLit, FixedDist, Zeros, Member, Field;
    MemberBits(n);
    var bits := Stream(Member(n))[..DataEnd(n)];
    DataParts(n, bits);
    FirstZero(bits);
    ManyMatches(bits, 91, n, j, 1);
    ManyMatches(bits, 91, n, n, 1);
    LastCode(bits, 91 + 13 * n, Zeros(1 + 258 * n));
    StepOn(bits, 83, []);
    StepOn(bits, 91 + 13 * n, Zeros(1 + 258 * n));
    assert OneBlock(bits, 80, []) == Codes(FixedLit(), FixedDist(), bits, 83, []);
  }

  lemma FirstZero(bits: seq<bool>)
    requires 91 <= |bits| && bits[83..91] == ZeroCode()
    ensures CodeStep(FixedLit(), FixedDist(), bits, 83, []) == Next(91, Zeros(1))
  {
    hide Decode, IsCode, FixedLit, FixedDist, ZeroCode, Num;
    TheCodes();
    ReadsCode(FixedLit(), 0, ZeroCode(), bits, 83);
    assert [] + [0] == Zeros(1);
  }

  lemma LastCode(bits: seq<bool>, pos: nat, out: seq<byte>)
    requires pos + 7 <= |bits| && bits[pos..pos + 7] == EndCode()
    ensures CodeStep(FixedLit(), FixedDist(), bits, pos, out) == End(Done(pos + 7, out))
  {
    hide Decode, IsCode, FixedLit, FixedDist, EndCode, Num;
    TheCodes();
    ReadsCode(FixedLit(), 256, EndCode(), bits, pos);
  }

  // ---- in the loader ----

  lemma {:induction false} MatchBit(n: nat, q: nat)
    requires q < n
    ensures Matches(n)[13 * q + 5]
  {
    hide Word;
    LongBit();
    if q > 0 {
      MatchBit(n - 1, q - 1);
      assert Matches(n)[13 * q + 5] == Matches(n - 1)[13 * (q - 1) + 5];
    }
  }

  lemma LongBit()
    ensures LongCode()[5]
  {
    hide Word;
    SixthBit(197, 8);
  }

  // Bit 5 of eight, from the most significant on.
  lemma SixthBit(v: nat, k: nat)
    requires k == 8
    ensures Word(v, k)[5] <==> v / 4 % 2 == 1
  {
    hide Word;
    WordStep(v, k);
    WordStep(v / 2, k - 1);
    WordStep(v / 4, k - 2);
  }

  lemma WordStep(v: nat, k: nat)
    requires k > 0
    ensures Word(v, k) == Word(v / 2, k - 1) + [v % 2 == 1]
  {
  }

  lemma OddByte(z: seq<byte>, i: nat)
    requires i < |z| && Stream(z)[8 * i]
    ensures z[i] != 0
  {
    hide Stream;
    StreamByte(z, i);
    var s := Stream(z)[8 * i..8 * i + 8];
    assert s[0];
  }

  // After j of the n matches the code has flushed w windows of zeros, which lie over byte i of the
  // member.  The code has yet to read that byte (it buffers at most three), and it starts inside
  // match q, with a one.
  predicate Unread(n: nat, j: nat, w: nat, q: nat, i: nat)
  {
    && n % 8 == 0 && j <= n && q < n && w * WSIZE <= 1 + 258 * j && n > 0
    && 8 * i == 96 + 13 * q && 91 + 13 * j + 24 <= 8 * i && GAP + i < w * WSIZE
  }

  // Numbers for which all this is so, with a member that fits the smaller flash area.
  lemma SuchNumbers(n: nat, j: nat, w: nat, q: nat, i: nat)
    requires n == 40000 && j == 21846 && w == 172 && q == 24608 && i == 40000
    ensures Unread(n, j, w, q, i) && 21 + 13 * n / 8 <= CODE1_LIMIT
  {
  }

  lemma MatchByte(n: nat, q: nat, i: nat)
    requires n % 8 == 0 && q < n && 8 * i == 96 + 13 * q
    ensures i < |Member(n)| && Member(n)[i] != 0
  {
    hide Stream, Matches, BlockBits, Member, Field, ZeroCode, EndCode;
    MemberBits(n);
    var bits := Stream(Member(n))[..DataEnd(n)];
    DataParts(n, bits);
    MatchBit(n, q);
    assert bits[91..91 + 13 * n][13 * q + 5] == bits[8 * i];
    OddByte(Member(n), i);
  }

  // The reference inflates the member.
  lemma MemberInflates(n: nat)
    requires n % 8 == 0
    ensures var z, lim := Member(n), DataEnd(n);
            && |z| == 21 + 13 * n / 8 && SkipHeader(z) == Body(10) && lim + 24 <= 8 * |z|
            && Payload(z, 10, lim) == Done(98 + 13 * n, Zeros(1 + 258 * n))
  {
    hide Stream, Codes, CodeStep, Matches, BlockBits, FixedLit, FixedDist, Zeros, Member, Payload, SkipHeader;
    hide Field, ZeroCode, EndCode;
    MemberBits(n);
    MemberSkipped(n);
    AfterMatches(n, n);
    var bits := Stream(Member(n))[..DataEnd(n)];
    DataParts(n, bits);
    LastCode(bits, 91 + 13 * n, Zeros(1 + 258 * n));
    StepOn(bits, 91 + 13 * n, Zeros(1 + 258 * n));
  }

  // Where the member is and its output goes.
  function Spots(n: nat): Places { Places(COPY_START + HDR, 21 + 13 * n / 8, SDRAM_START) }

  predicate KeptAfter(n: nat, k: nat) { Kept(Spots(n), 91 + 13 * k, 1 + 258 * k) }

  lemma NotKept(n: nat, j: nat, w: nat, q: nat, i: nat)
    requires Unread(n, j, w, q, i)
    ensures !KeptAfter(n, j) && Flushed(1 + 258 * j) >= w * WSIZE
  {
    FlushedAtLeast(1 + 258 * j, w);
  }

  lemma FlushedAtLeast(n: nat, w: nat)
    requires w * WSIZE <= n
    ensures Flushed(n) >= w * WSIZE
  {
  }

  // A pace that is kept is kept after every match.
  lemma {:induction false} KeptAlong(pl: Places, bits: seq<bool>, pos: nat, n: nat, j: nat, k: nat)
    requires k >= 1 && j <= n && pos + 13 * n <= |bits| && bits[pos..pos + 13 * n] == Matches(n)
    requires CodesKept(pl, FixedLit(), FixedDist(), bits, pos, Zeros(k))
    ensures j > 0 ==> Kept(pl, pos + 13 * j, k + 258 * j)
    decreases j
  {
    hide CodeStep, FixedLit, FixedDist, LongCode, NearCode, Zeros, Kept;
    if j > 0 {
      var m := bits[pos..pos + 13 * n];
      SliceTake(bits, pos, pos + 13 * n, 8);
      FirstMatch(n, m);
      SliceMiddle(bits, pos, 13 * n, 8, 13);
      OneMatch(bits, pos, k);
      ZerosSize(k + 258);
      SliceDrop(bits, pos, pos + 13 * n, 13);
      KeptAlong(pl, bits, pos + 13, n - 1, j - 1, k + 258);
    }
  }

  lemma KeptThroughout(n: nat, j: nat)
    requires n % 8 == 0 && 0 < j <= n && Decompressible(Member(n), COPY_START + HDR, SDRAM_START, DataEnd(n))
    ensures KeptAfter(n, j)
  {
    hide Stream, CodeStep, Matches, BlockBits, FixedLit, FixedDist, Member, SkipHeader, Field, ZeroCode, EndCode, Kept;
    MemberInflates(n);
    MemberBits(n);
    var bits := Stream(Member(n))[..DataEnd(n)];
    DataParts(n, bits);
    FirstZero(bits);
    assert BlockKept(Spots(n), bits, 80, []);
    KeptAlong(Spots(n), bits, 91, n, j, 1);
  }

  // So the condition for decompressing fails.
  lemma TooFast(n: nat, j: nat, w: nat, q: nat, i: nat)
    requires Unread(n, j, w, q, i) && j > 0
    ensures !Decompressible(Member(n), COPY_START + HDR, SDRAM_START, DataEnd(n))
  {
    hide Decompressible, Member, Kept;
    NotKept(n, j, w, q, i);
    if Decompressible(Member(n), COPY_START + HDR, SDRAM_START, DataEnd(n)) { KeptThroughout(n, j); }
  }

  // Match j is the first whose output reaches unread input.
  ghost predicate Soonest(n: nat, j: nat) { j > 0 && forall k :: 0 <= k < j ==> KeptAfter(n, k) }

  lemma SoonestHere(n: nat, j: nat)
    requires n == 40000 && j == 21846
    ensures Soonest(n, j)
  {
    forall k | 0 <= k < j ensures KeptAfter(n, k) { EarlyKept(n, k); }
  }

  // Up to 170 windows end in front of the member; when the next is written, its place is read.
  lemma EarlyKept(n: nat, k: nat)
    requires k < 21846
    ensures KeptAfter(n, k)
  {
    if 1 + 258 * k < 171 * WSIZE {
      FlushedBelow(1 + 258 * k, 170);
    } else {
      FlushedBelow(1 + 258 * k, 171);
      assert NextByte(91 + 13 * k) >= 35304;
    }
  }

  lemma FlushedBelow(n: nat, w: nat)
    requires n < (w + 1) * WSIZE
    ensures Flushed(n) <= w * WSIZE
  {
  }

  // inf decompresses the member.
  ghost predicate OnMember(inf: Inflater, n: nat)
  {
    && inf.reader.addr == COPY_START + HDR && inf.reader.zinbuf == Member(n)
    && inf.o.outputData == SDRAM_START && inf.lim == DataEnd(n)
  }

  // gz_decompress up to the codes of the block.
  method Open(mem: Ram, window: array<byte>, store: Store, ghost n: nat) returns (inf: Inflater)
    requires window.Length == WSIZE && store.Valid() && Sits(mem.bytes, COPY_START + HDR, Member(n)) && n % 8 == 0
    ensures OnMember(inf, n) && inf.reader.mem == mem && inf.o.window == window && inf.store == store
    ensures inf.Valid() && inf.reader.Pos() == 83 && inf.o.out == [] && fresh(inf.reader) && fresh(inf.o)
  {
    hide Stream, Member, Matches, BlockBits, Field, ZeroCode, EndCode, Sits, SitsFrom, SkipHeader, Store.Valid, Payload;
    MemberInflates(n);
    MemberBits(n);
    ghost var bits := Stream(Member(n))[..DataEnd(n)];
    DataParts(n, bits);
    var _, at := PassHeader(mem, COPY_START + HDR, Member(n));
    var reader := new Reader(mem, COPY_START + HDR, Member(n), at);
    var o := new Output(SDRAM_START, mem, window);
    inf := new Inflater(reader, o, store, DataEnd(n));
    reader.Restart();
    var e := inf.GetField(1);
    var t := inf.GetField(2);
    assert t == 1;               // fixed codes
  }

  // The turns of inflate_codes up to match j.
  method Drive(inf: Inflater, tl: int, td: int, bl: nat, bd: nat, j: nat, ghost n: nat)
    requires OnMember(inf, n) && inf.Valid() && inf.reader.Pos() == 83 && inf.o.out == []
    requires n % 8 == 0 && j <= n && Soonest(n, j)
    requires LitTable(inf.store.tables, tl, bl, FixedLit(), 9) && DistTable(inf.store.tables, td, bd, FixedDist(), 5)
    modifies inf.reader, inf.o, inf.o.window, inf.o.mem
    ensures inf.Sound() && inf.reader.Pos() == 91 + 13 * j && inf.o.out == Zeros(1 + 258 * j)
  {
    hide Stream, Member, Matches, BlockBits, FixedLit, FixedDist, Zeros, Field, ZeroCode, EndCode, CodeStep, Kept;
    hide LitTable, DistTable, Output.Valid, Reader.Valid, Reader.Buffered, Store.Valid, Payload, LongCode, NearCode;
    MemberInflates(n);
    MemberBits(n);
    ghost var bits := Stream(Member(n))[..DataEnd(n)];
    DataParts(n, bits);
    FirstZero(bits);
    ZerosSize(1);
    assert KeptAfter(n, 0);
    var more, r := inf.CodesTurn(tl, td, bl, bd, FixedLit(), FixedDist(), 9, 5);
    var k := 0;
    while k < j
      invariant 0 <= k <= j && inf.Sound() && (k < j ==> inf.Valid())
      invariant inf.reader.Pos() == 91 + 13 * k && inf.o.out == Zeros(1 + 258 * k)
    {
      MatchAt(bits, n, k);
      OneMatch(bits, 91 + 13 * k, 1 + 258 * k);
      ZerosSize(1 + 258 * (k + 1));
      more, r := inf.CodesTurn(tl, td, bl, bd, FixedLit(), FixedDist(), 9, 5);
      k := k + 1;
      assert k < j ==> KeptAfter(n, k);
    }
  }

  // gz_decompress on the member, as far as match j: the code then has yet to read byte i, and
  // memory holds another value there.  Not ok means that malloc refused a table.
  method Swamped(mem: Ram, window: array<byte>, store: Store, j: nat, ghost n: nat, ghost w: nat, ghost q: nat,
                 ghost i: nat)
    returns (ok: bool, inf: Inflater)
    requires window.Length == WSIZE && store.Valid() && Sits(mem.bytes, COPY_START + HDR, Member(n))
    requires Unread(n, j, w, q, i) && Soonest(n, j)
    modifies mem, window, store, store.heap
    ensures ok <==> store.heap.refusals == old(store.heap.refusals)
    ensures OnMember(inf, n) && inf.reader.mem == mem
    ensures ok ==> inf.Sound() && inf.reader.Pos() == 91 + 13 * j && inf.o.out == Zeros(1 + 258 * j)
    ensures ok ==> inf.reader.inptr <= i < |Member(n)| && Member(n)[i] != 0
    ensures ok ==> COPY_START + HDR + i in mem.bytes && mem.bytes[COPY_START + HDR + i] == 0 && !inf.reader.Valid()
  {
    hide Member, FixedLit, FixedDist, Zeros, Sits, LitTable, DistTable, Output.Valid, Reader.Valid, Reader.Buffered;
    hide Inflater.Sound, Owned, Store.Valid;
    hide Soonest;
    inf := Open(mem, window, store, n);
    var r, tl, td, bl, bd, us, vs, T1, live1 := inf.FixedTables();
    if r != 0 { return false, inf; }
    Drive(inf, tl, td, bl, bd, j, n);
    MatchByte(n, q, i);
    Lost(inf, n, j, w, q, i);
    return true, inf;
  }

  // Flushed output lies over byte i, which is behind what has been read.
  lemma Lost(inf: Inflater, n: nat, j: nat, w: nat, q: nat, i: nat)
    requires inf.Sound() && inf.reader.addr == COPY_START + HDR && inf.reader.zinbuf == Member(n)
    requires inf.o.outputData == SDRAM_START && inf.reader.Pos() == 91 + 13 * j && inf.o.out == Zeros(1 + 258 * j)
    requires Unread(n, j, w, q, i) && i < |Member(n)| && Member(n)[i] != 0
    ensures inf.reader.inptr <= i && COPY_START + HDR + i in inf.reader.mem.bytes
    ensures inf.reader.mem.bytes[COPY_START + HDR + i] == 0 && !inf.reader.Valid()
  {
    hide Stream, Member, Num, Holds, Written, Sits;
    var o, a := inf.o, COPY_START + HDR + i;
    NotKept(n, j, w, q, i);
    FlushedIs(o.outputPtr, o.outcnt);
    WrittenAt(o.ram0, SDRAM_START, o.out[..o.outputPtr], a);
  }

  lemma {:induction false} MatchesAt(n: nat, k: nat)
    requires k < n
    ensures Matches(n)[13 * k..13 * k + 8] == LongCode() && Matches(n)[13 * k + 8..13 * k + 13] == NearCode()
  {
    hide LongCode, NearCode;
    var m := Matches(n);
    FirstMatch(n, m);
    if k > 0 {
      MatchesAt(n - 1, k - 1);
      assert m[13..][13 * (k - 1)..13 * (k - 1) + 8] == m[13 * k..13 * k + 8];
      assert m[13..][13 * (k - 1) + 8..13 * (k - 1) + 13] == m[13 * k + 8..13 * k + 13];
    }
  }

  lemma MatchAt(bits: seq<bool>, n: nat, k: nat)
    requires k < n && 91 + 13 * n <= |bits| && bits[91..91 + 13 * n] == Matches(n)
    ensures var p := 91 + 13 * k; bits[p..p + 8] == LongCode() && bits[p + 8..p + 13] == NearCode()
  {
    hide LongCode, NearCode, Matches;
    MatchesAt(n, k);
    SliceMiddle(bits, 91, 13 * n, 13 * k, 13 * k + 8);
    SliceMiddle(bits, 91, 13 * n, 13 * k + 8, 13 * k + 13);
  }

  lemma MemberSkipped(n: nat)
    ensures SkipHeader(Member(n)) == Body(10)
  {
    hide SkipHeader, HeaderBytes, BlockBits, Pack;
    PlainSize();
    HeaderSkipped(PlainHeader, Pack(BlockBits(n)) + Zeros(8));
    assert Member(n) == HeaderBytes(PlainHeader) + (Pack(BlockBits(n)) + Zeros(8));
  }
}
