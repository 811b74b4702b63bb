// Whole blocks and streams of the encoder: what it writes, the reference decoder reads back.
module BlockEncoding {
  import opened Bits
  import opened Canonical
  import opened Deflate
  import opened FixedCodes
  import opened Encoding

  // ---- the tokens of a block ----

  ghost predicate AllFit(lit: seq<nat>, dist: seq<nat>, ts: seq<Token>, n: nat)
  {
    ts == [] || (Fits(lit, dist, ts[0], n) && AllFit(lit, dist, ts[1..], n + Width(ts[0])))
  }

  function Width(t: Token): nat { if t.Literal? then 1 else t.len }

  // The tokens and the end of the block.
  ghost function TokensBits(lit: seq<nat>, dist: seq<nat>, ts: seq<Token>, n: nat): (s: seq<bool>)
    requires AllFit(lit, dist, ts, n) && Has(lit, 256)
  {
    if ts == [] then CodeBits(lit, 256)
    else TokenBits(lit, dist, ts[0], n) + TokensBits(lit, dist, ts[1..], n + Width(ts[0]))
  }

  ghost function AddsAll(lit: seq<nat>, dist: seq<nat>, ts: seq<Token>, out: seq<byte>): (r: seq<byte>)
    requires AllFit(lit, dist, ts, |out|)
  {
    if ts == [] then out else AddsAll(lit, dist, ts[1..], Adds(ts[0], out))
  }

  lemma {:induction false} TokensRead(lit: seq<nat>, dist: seq<nat>, bits: seq<bool>, pos: nat, out: seq<byte>,
                                      ts: seq<Token>)
    requires Proper(lit) && Proper(dist) && Has(lit, 256) && AllFit(lit, dist, ts, |out|)
    requires At(bits, pos, TokensBits(lit, dist, ts, |out|))
    ensures Codes(lit, dist, bits, pos, out)
            == Done(pos + |TokensBits(lit, dist, ts, |out|)|, AddsAll(lit, dist, ts, out))
    decreases |ts|
  {
    hide At, CodeStep, TokenBits, CodeBits, Proper, Adds, Fits;
    if ts == [] {
      EndRead(lit, dist, bits, pos, out);
    } else {
      AddsWidth(lit, dist, ts[0], out);
      AtParts(bits, pos, TokenBits(lit, dist, ts[0], |out|), TokensBits(lit, dist, ts[1..], |out| + Width(ts[0])));
      TokenRead(lit, dist, bits, pos, out, ts[0]);
      TokensRead(lit, dist, bits, pos + |TokenBits(lit, dist, ts[0], |out|)|, Adds(ts[0], out), ts[1..]);
    }
  }

  lemma AddsWidth(lit: seq<nat>, dist: seq<nat>, t: Token, out: seq<byte>)
    requires Fits(lit, dist, t, |out|)
    ensures (t.Copy? ==> 1 <= t.dist <= |out|) && |Adds(t, out)| == |out| + Width(t)
  {
  }

  lemma EndRead(lit: seq<nat>, dist: seq<nat>, bits: seq<bool>, pos: nat, out: seq<byte>)
    requires Proper(lit) && Has(lit, 256) && At(bits, pos, CodeBits(lit, 256))
    ensures CodeStep(lit, dist, bits, pos, out) == End(Done(pos + |CodeBits(lit, 256)|, out))
  {
    hide At, CodeBits, Decode, Proper;
    SymbolRead(lit, 256, bits, pos);
  }

  // ---- the lengths of a dynamic block ----

  // One length, a repetition of the last one, or zeros.
  datatype Run = One(len: nat) | Again(n: nat) | Blanks(n: nat)

  predicate RunFits(cl: seq<nat>, acc: seq<nat>, r: Run)
  {
    match r
    case One(len) => len <= 15 && Has(cl, len)
    case Again(n) => 3 <= n <= 6 && acc != [] && Has(cl, 16)
    case Blanks(n) => 3 <= n <= 138 && Has(cl, if n <= 10 then 17 else 18)
  }

  function RunBits(cl: seq<nat>, acc: seq<nat>, r: Run): seq<bool>
    requires RunFits(cl, acc, r)
  {
    match r
    case One(len) => CodeBits(cl, len)
    case Again(n) => CodeBits(cl, 16) + FieldBits(n - 3, 2)
    case Blanks(n) => if n <= 10 then CodeBits(cl, 17) + FieldBits(n - 3, 3)
      else CodeBits(cl, 18) + FieldBits(n - 11, 7)
  }

  // The lengths with the run behind them.
  function Spread(acc: seq<nat>, r: Run): (s: seq<nat>)
    requires r.Again? ==> acc != []
  {
    match r
    case One(len) => acc + [len]
    case Again(n) => acc + seq(n, _ => acc[|acc| - 1])
    case Blanks(n) => acc + seq(n, _ => 0)
  }

  ghost predicate RunsFit(cl: seq<nat>, acc: seq<nat>, rs: seq<Run>)
    decreases |rs|
  {
    rs == [] || (RunFits(cl, acc, rs[0]) && RunsFit(cl, Spread(acc, rs[0]), rs[1..]))
  }

  ghost function RunsBits(cl: seq<nat>, acc: seq<nat>, rs: seq<Run>): seq<bool>
    requires RunsFit(cl, acc, rs)
    decreases |rs|
  {
    if rs == [] then [] else RunBits(cl, acc, rs[0]) + RunsBits(cl, Spread(acc, rs[0]), rs[1..])
  }

  ghost function SpreadAll(cl: seq<nat>, acc: seq<nat>, rs: seq<Run>): (s: seq<nat>)
    requires RunsFit(cl, acc, rs)
    ensures |acc| <= |s| && (rs != [] ==> |acc| < |s|)
    decreases |rs|
  {
    if rs == [] then acc else SpreadAll(cl, Spread(acc, rs[0]), rs[1..])
  }

  lemma RunRead(cl: seq<nat>, bits: seq<bool>, pos: nat, total: nat, acc: seq<nat>, r: Run)
    requires Proper(cl) && RunFits(cl, acc, r) && At(bits, pos, RunBits(cl, acc, r))
    requires |acc| < |Spread(acc, r)| <= total
    ensures pos + |RunBits(cl, acc, r)| <= |bits|
    ensures ReadLens(cl, bits, pos, total, acc)
            == ReadLens(cl, bits, pos + |RunBits(cl, acc, r)|, total, Spread(acc, r))
  {
    hide At, CodeBits, FieldBits, Decode, Proper, Num;
    SmallPowers();
    AtWithin(bits, pos, RunBits(cl, acc, r));
    match r
    case One(len) => SymbolRead(cl, len, bits, pos);
    case Again(n) =>
      AtParts(bits, pos, CodeBits(cl, 16), FieldBits(n - 3, 2));
      SymbolRead(cl, 16, bits, pos);
      FieldRead(bits, pos + cl[16], n - 3, 2);
      assert acc + Repeat(RunValue(16, acc), n) == Spread(acc, r);
    case Blanks(n) =>
      var sym, x, k := if n <= 10 then 17 else 18, if n <= 10 then n - 3 else n - 11, if n <= 10 then 3 else 7;
      AtParts(bits, pos, CodeBits(cl, sym), FieldBits(x, k));
      SymbolRead(cl, sym, bits, pos);
      FieldRead(bits, pos + cl[sym], x, k);
      assert acc + Repeat(RunValue(sym, acc), n) == Spread(acc, r);
  }

  lemma {:induction false} RunsRead(cl: seq<nat>, bits: seq<bool>, pos: nat, total: nat, acc: seq<nat>, rs: seq<Run>)
    requires Proper(cl) && RunsFit(cl, acc, rs) && |SpreadAll(cl, acc, rs)| == total
    requires At(bits, pos, RunsBits(cl, acc, rs))
    ensures pos <= |bits|
    ensures ReadLens(cl, bits, pos, total, acc) == Lens(pos + |RunsBits(cl, acc, rs)|, SpreadAll(cl, acc, rs))
    decreases |rs|
  {
    hide At, RunBits, RunFits, Decode, Proper, Spread;
    if rs == [] {
      NothingAt(bits, pos);
    } else {
      SpreadGrows(cl, acc, rs[0]);
      var acc' := Spread(acc, rs[0]);
      AtParts(bits, pos, RunBits(cl, acc, rs[0]), RunsBits(cl, acc', rs[1..]));
      RunRead(cl, bits, pos, total, acc, rs[0]);
      RunsRead(cl, bits, pos + |RunBits(cl, acc, rs[0])|, total, acc', rs[1..]);
    }
  }

  lemma NothingAt(bits: seq<bool>, pos: nat)
    requires At(bits, pos, [])
    ensures pos <= |bits|
  {
  }

  lemma SpreadGrows(cl: seq<nat>, acc: seq<nat>, r: Run)
    requires RunFits(cl, acc, r)
    ensures (r.Again? ==> acc != []) && |acc| < |Spread(acc, r)|
  {
  }

  // The symbol whose length is written j-th: the three runs and zero, then the lengths from 8 on
  // alternating with those below.
  function SymbolAt(j: nat): (s: nat)
    requires j < 19
    ensures s < 19
  {
    if j < 3 then 16 + j else if j == 3 then 0 else if j % 2 == 0 then 8 + (j - 4) / 2 else 7 - (j - 5) / 2
  }

  function PlaceOf(s: nat): (j: nat)
    requires s < 19
    ensures j < 19 && SymbolAt(j) == s
  {
    if s >= 16 then s - 16 else if s == 0 then 3 else if s >= 8 then 4 + 2 * (s - 8) else 5 + 2 * (7 - s)
  }

  lemma PlacesApart(i: nat, j: nat)
    requires i < 19 && j < 19 && SymbolAt(i) == SymbolAt(j)
    ensures i == j
  {
  }

  lemma BorderIs(j: nat)
    requires j < 19
    ensures Border()[j] == SymbolAt(j)
  {
    assert j == 0 || j == 1 || j == 2 || j == 3 || j == 4 || j == 5 || j == 6 || j == 7 || j == 8 || j == 9
      || j == 10 || j == 11 || j == 12 || j == 13 || j == 14 || j == 15 || j == 16 || j == 17 || j == 18;
  }

  // Three bits for each of the first nb.
  function ClBits(cl: seq<nat>, nb: nat): (s: seq<bool>)
    requires |cl| == 19 && nb <= 19
    ensures |s| == 3 * nb
  {
    if nb == 0 then [] else ClBits(cl, nb - 1) + FieldBits(cl[SymbolAt(nb - 1)], 3)
  }

  ghost predicate ClFits(cl: seq<nat>, nb: nat)
  {
    && |cl| == 19 && 4 <= nb <= 19 && (forall s :: 0 <= s < 19 ==> cl[s] < 8)
    && (forall s: nat :: s < 19 && PlaceOf(s) >= nb ==> cl[s] == 0)
  }

  lemma {:induction false} ClPart(cl: seq<nat>, nb: nat, bits: seq<bool>, pos: nat, s: nat)
    requires |cl| == 19 && nb <= 19 && (forall i :: 0 <= i < 19 ==> cl[i] < 8) && At(bits, pos, ClBits(cl, nb))
             && s < 19
    ensures pos + 3 * nb <= |bits| && ClLens(bits, pos, nb)[s] == if PlaceOf(s) < nb then cl[s] else 0
    decreases nb
  {
    hide At, FieldBits, Num, Border, SymbolAt, PlaceOf;
    if nb == 0 {
      NothingAt(bits, pos);
    } else {
      AtParts(bits, pos, ClBits(cl, nb - 1), FieldBits(cl[SymbolAt(nb - 1)], 3));
      SmallPowers();
      FieldRead(bits, pos + 3 * (nb - 1), cl[SymbolAt(nb - 1)], 3);
      ClPart(cl, nb - 1, bits, pos, s);
      BorderIs(nb - 1);
      if SymbolAt(nb - 1) == s { PlacesApart(nb - 1, PlaceOf(s)); }
    }
  }

  lemma ClRead(cl: seq<nat>, nb: nat, bits: seq<bool>, pos: nat)
    requires ClFits(cl, nb) && At(bits, pos, ClBits(cl, nb))
    ensures pos + 3 * nb <= |bits| && ClLens(bits, pos, nb) == cl
  {
    hide At, ClBits, PlaceOf;
    ClPart(cl, nb, bits, pos, 0);
    forall s | 0 <= s < 19 ensures ClLens(bits, pos, nb)[s] == cl[s] { ClPart(cl, nb, bits, pos, s); }
  }

  // A set the format allows: complete, or of a single code of one bit, or empty.
  ghost predicate Legal(lens: seq<nat>)
  {
    && (forall i :: 0 <= i < |lens| ==> lens[i] <= BMAX)
    && (Kraft(lens) == Pow2(BMAX) || (Kraft(lens) < Pow2(BMAX) && forall i :: 0 <= i < |lens| ==> lens[i] <= 1))
  }

  lemma LegalJudged(lens: seq<nat>)
    requires Legal(lens)
    ensures Proper(lens) && Verdict(lens) == 0
  {
    if Kraft(lens) < Pow2(BMAX) { LongestUpTo(lens, 1); }
  }

  lemma {:induction false} LongestUpTo(s: seq<nat>, n: nat)
    requires forall i :: 0 <= i < |s| ==> s[i] <= n
    ensures Longest(s) <= n
  {
    if s != [] { LongestUpTo(s[..|s| - 1], n); }
  }

  // The lengths at the start of a dynamic block: nl for literals and lengths, nd for distances.
  datatype Head = Head(cl: seq<nat>, nb: nat, nl: nat, nd: nat, runs: seq<Run>)

  ghost predicate HeadFits(h: Head)
  {
    && ClFits(h.cl, h.nb) && 257 <= h.nl <= 286 && 1 <= h.nd <= 30 && Legal(h.cl)
    && RunsFit(h.cl, [], h.runs) && |SpreadAll(h.cl, [], h.runs)| == h.nl + h.nd
    && Legal(LitOf(h)) && Legal(DistOf(h))
  }

  ghost function LitOf(h: Head): seq<nat>
    requires RunsFit(h.cl, [], h.runs) && |SpreadAll(h.cl, [], h.runs)| == h.nl + h.nd
  {
    SpreadAll(h.cl, [], h.runs)[..h.nl]
  }

  ghost function DistOf(h: Head): seq<nat>
    requires RunsFit(h.cl, [], h.runs) && |SpreadAll(h.cl, [], h.runs)| == h.nl + h.nd
  {
    SpreadAll(h.cl, [], h.runs)[h.nl..]
  }

  ghost function HeadBits(h: Head): seq<bool>
    requires HeadFits(h)
  {
    FieldBits(h.nl - 257, 5) + (FieldBits(h.nd - 1, 5) + (FieldBits(h.nb - 4, 4)
    + (ClBits(h.cl, h.nb) + RunsBits(h.cl, [], h.runs))))
  }

  lemma HeadRead(h: Head, bits: seq<bool>, pos: nat)
    requires HeadFits(h) && At(bits, pos, HeadBits(h))
    ensures SetUp(bits, pos) == Ready(LitOf(h), DistOf(h), pos + |HeadBits(h)|)
  {
    hide At, FieldBits, ClBits, RunsBits, ClFits, RunsFit, Legal, Verdict, ClLens, ReadLens, Num, SpreadAll;
    SmallPowers();
    ClSizes(h.cl, h.nb);
    var r := RunsBits(h.cl, [], h.runs);
    var c := ClBits(h.cl, h.nb) + r;
    var b := FieldBits(h.nb - 4, 4) + c;
    var d := FieldBits(h.nd - 1, 5) + b;
    AtParts(bits, pos, FieldBits(h.nl - 257, 5), d);
    FieldRead(bits, pos, h.nl - 257, 5);
    AtParts(bits, pos + 5, FieldBits(h.nd - 1, 5), b);
    FieldRead(bits, pos + 5, h.nd - 1, 5);
    AtParts(bits, pos + 10, FieldBits(h.nb - 4, 4), c);
    FieldRead(bits, pos + 10, h.nb - 4, 4);
    AtParts(bits, pos + 14, ClBits(h.cl, h.nb), r);
    ClRead(h.cl, h.nb, bits, pos + 14);
    LegalJudged(h.cl);
    RunsRead(h.cl, bits, pos + 14 + 3 * h.nb, h.nl + h.nd, [], h.runs);
    LegalJudged(LitOf(h));
    LegalJudged(DistOf(h));
  }

  lemma ClSizes(cl: seq<nat>, nb: nat)
    requires ClFits(cl, nb)
    ensures |cl| == 19 && 4 <= nb <= 19
  {
  }

  // ---- blocks ----

  // A stored, a fixed and a dynamic block.
  datatype Chunk = Plain(data: seq<byte>) | Fixed(tokens: seq<Token>) | Dynamic(head: Head, tokens: seq<Token>)

  ghost predicate ChunkFits(c: Chunk, n: nat)
  {
    match c
    case Plain(data) => |data| < 65536
    case Fixed(ts) => Has(FixedLit(), 256) && AllFit(FixedLit(), FixedDist(), ts, n)
    case Dynamic(h, ts) => HeadFits(h) && Has(LitOf(h), 256) && AllFit(LitOf(h), DistOf(h), ts, n)
  }

  function DataBits(data: seq<byte>): (s: seq<bool>)
    ensures |s| == 8 * |data|
  {
    if data == [] then [] else DataBits(data[..|data| - 1]) + FieldBits(data[|data| - 1], 8)
  }

  function Padding(n: nat): (s: seq<bool>)
    ensures (n + |s|) % 8 == 0 && |s| < 8
  {
    seq((8 - n % 8) % 8, _ => false)
  }

  ghost function BodyBits(c: Chunk, pos: nat, n: nat): seq<bool>
    requires ChunkFits(c, n)
  {
    match c
    case Plain(data) =>
      Padding(pos) + (FieldBits(|data|, 16) + (FieldBits(65535 - |data|, 16) + DataBits(data)))
    case Fixed(ts) => TokensBits(FixedLit(), FixedDist(), ts, n)
    case Dynamic(h, ts) => HeadBits(h) + TokensBits(LitOf(h), DistOf(h), ts, n)
  }

  function Kind(c: Chunk): nat { if c.Plain? then 0 else if c.Fixed? then 1 else 2 }

  // A block that starts at bit pos, with n bytes produced before it.
  ghost function ChunkBits(c: Chunk, last: bool, pos: nat, n: nat): seq<bool>
    requires ChunkFits(c, n)
  {
    [last] + (FieldBits(Kind(c), 2) + BodyBits(c, pos + 3, n))
  }

  ghost function ChunkAdds(c: Chunk, out: seq<byte>): seq<byte>
    requires ChunkFits(c, |out|)
  {
    match c
    case Plain(data) => out + data
    case Fixed(ts) => AddsAll(FixedLit(), FixedDist(), ts, out)
    case Dynamic(h, ts) => AddsAll(LitOf(h), DistOf(h), ts, out)
  }

  lemma {:induction false} DataRead(bits: seq<bool>, pos: nat, data: seq<byte>)
    requires At(bits, pos, DataBits(data))
    ensures pos + 8 * |data| <= |bits| && Bytes(bits, pos, |data|) == data
    decreases |data|
  {
    hide At, FieldBits, Num;
    if data == [] {
      NothingAt(bits, pos);
    } else {
      var n := |data| - 1;
      SmallPowers();
      AtParts(bits, pos, DataBits(data[..n]), FieldBits(data[n], 8));
      DataRead(bits, pos, data[..n]);
      FieldRead(bits, pos + 8 * n, data[n], 8);
      assert data == data[..n] + [data[n]];
    }
  }

  lemma Aligned(pos: nat)
    ensures pos + |Padding(pos)| == ByteAlign(pos)
  {
  }

  lemma StoredRead(bits: seq<bool>, pos: nat, data: seq<byte>, out: seq<byte>)
    requires |data| < 65536
    requires At(bits, pos, BodyBits(Plain(data), pos, |out|))
    ensures Stored(bits, pos, out) == Done(pos + |BodyBits(Plain(data), pos, |out|)|, out + data)
  {
    hide At, FieldBits, DataBits, Padding, ByteAlign, Num, Bytes;
    SmallPowers();
    var n := |data|;
    var c := FieldBits(65535 - n, 16) + DataBits(data);
    var p := ByteAlign(pos);
    Aligned(pos);
    AtParts(bits, pos, Padding(pos), FieldBits(n, 16) + c);
    AtParts(bits, p, FieldBits(n, 16), c);
    FieldRead(bits, p, n, 16);
    AtParts(bits, p + 16, FieldBits(65535 - n, 16), DataBits(data));
    FieldRead(bits, p + 16, 65535 - n, 16);
    DataRead(bits, p + 32, data);
  }

  lemma FixedProper()
    ensures Proper(FixedLit()) && Proper(FixedDist())
  {
    hide Kraft, FixedLit, FixedDist, Pow2;
    FixedKraft();
    forall i | 0 <= i < |FixedLit()| ensures FixedLit()[i] <= BMAX { FixedSmall(i); }
    forall i | 0 <= i < |FixedDist()| ensures FixedDist()[i] <= BMAX { FixedSmall(i); }
  }

  lemma FixedSmall(i: nat)
    ensures i < |FixedLit()| ==> FixedLit()[i] <= BMAX
    ensures i < |FixedDist()| ==> FixedDist()[i] <= BMAX
  {
  }

  lemma DynamicRead(h: Head, ts: seq<Token>, bits: seq<bool>, pos: nat, out: seq<byte>)
    requires ChunkFits(Dynamic(h, ts), |out|) && At(bits, pos, BodyBits(Dynamic(h, ts), pos, |out|))
    ensures Finish(SetUp(bits, pos), bits, out)
            == Done(pos + |BodyBits(Dynamic(h, ts), pos, |out|)|, ChunkAdds(Dynamic(h, ts), out))
  {
    hide At, TokensBits, HeadBits, SetUp, Codes, AddsAll, AllFit, Legal, ClFits, RunsFit, Proper, SpreadAll;
    HeadLegal(h);
    AtParts(bits, pos, HeadBits(h), TokensBits(LitOf(h), DistOf(h), ts, |out|));
    HeadRead(h, bits, pos);
    TokensRead(LitOf(h), DistOf(h), bits, pos + |HeadBits(h)|, out, ts);
  }

  lemma FixedRead(ts: seq<Token>, bits: seq<bool>, pos: nat, out: seq<byte>)
    requires ChunkFits(Fixed(ts), |out|) && At(bits, pos, BodyBits(Fixed(ts), pos, |out|))
    ensures Codes(FixedLit(), FixedDist(), bits, pos, out)
            == Done(pos + |BodyBits(Fixed(ts), pos, |out|)|, ChunkAdds(Fixed(ts), out))
  {
    hide At, TokensBits, Codes, AddsAll, AllFit, FixedLit, FixedDist, Proper;
    FixedProper();
    TokensRead(FixedLit(), FixedDist(), bits, pos, out, ts);
  }

  lemma HeadLegal(h: Head)
    requires HeadFits(h)
    ensures Proper(LitOf(h)) && Proper(DistOf(h))
  {
    LegalJudged(LitOf(h));
    LegalJudged(DistOf(h));
  }

  lemma ChunkRead(c: Chunk, last: bool, bits: seq<bool>, pos: nat, out: seq<byte>)
    requires ChunkFits(c, |out|) && At(bits, pos, ChunkBits(c, last, pos, |out|))
    ensures pos < |bits| && bits[pos] == last
    ensures OneBlock(bits, pos, out) == Done(pos + |ChunkBits(c, last, pos, |out|)|, ChunkAdds(c, out))
  {
    hide BodyBits, FieldBits, Codes, Stored, SetUp, FixedLit, FixedDist, Num, Finish;
    hide TokensBits, AddsAll, AllFit, HeadFits, LitOf, DistOf;
    SmallPowers();
    var r := FieldBits(Kind(c), 2) + BodyBits(c, pos + 3, |out|);
    AtParts(bits, pos, [last], r);
    assert bits[pos] == bits[pos..pos + 1][0];
    AtParts(bits, pos + 1, FieldBits(Kind(c), 2), BodyBits(c, pos + 3, |out|));
    FieldRead(bits, pos + 1, Kind(c), 2);
    match c
    case Plain(data) => StoredRead(bits, pos + 3, data, out);
    case Fixed(ts) => FixedRead(ts, bits, pos + 3, out);
    case Dynamic(h, ts) => DynamicRead(h, ts, bits, pos + 3, out);
  }

  // ---- streams ----

  ghost predicate ChunksFit(cs: seq<Chunk>, out: seq<byte>)
  {
    cs == [] || (ChunkFits(cs[0], |out|) && ChunksFit(cs[1..], ChunkAdds(cs[0], out)))
  }

  ghost function ChunksBits(cs: seq<Chunk>, pos: nat, out: seq<byte>): seq<bool>
    requires cs != [] && ChunksFit(cs, out)
  {
    var b := ChunkBits(cs[0], |cs| == 1, pos, |out|);
    if |cs| == 1 then b else b + ChunksBits(cs[1..], pos + |b|, ChunkAdds(cs[0], out))
  }

  ghost function Meaning(cs: seq<Chunk>, out: seq<byte>): seq<byte>
    requires ChunksFit(cs, out)
  {
    if cs == [] then out else Meaning(cs[1..], ChunkAdds(cs[0], out))
  }

  // Every stream the encoder writes is read back as what it means, wherever it starts and whatever follows.
  lemma {:induction false} StreamRead(cs: seq<Chunk>, bits: seq<bool>, pos: nat, out: seq<byte>)
    requires cs != [] && ChunksFit(cs, out) && At(bits, pos, ChunksBits(cs, pos, out))
    ensures Inflated(bits, pos, out) == Done(pos + |ChunksBits(cs, pos, out)|, Meaning(cs, out))
    decreases |cs|
  {
    hide At, ChunkBits, ChunkAdds, ChunkFits, OneBlock;
    var b := ChunkBits(cs[0], |cs| == 1, pos, |out|);
    if |cs| > 1 {
      AtParts(bits, pos, b, ChunksBits(cs[1..], pos + |b|, ChunkAdds(cs[0], out)));
      StreamRead(cs[1..], bits, pos + |b|, ChunkAdds(cs[0], out));
    }
    ChunkRead(cs[0], |cs| == 1, bits, pos, out);
  }

  // ---- what the format allows and what it refuses ----

  // A distance set of one code of one bit is legal, so a block that has it is accepted.
  lemma OneBitDistance(h: Head, s: nat, bits: seq<bool>, pos: nat)
    requires ClFits(h.cl, h.nb) && 257 <= h.nl <= 286 && 1 <= h.nd <= 30 && Legal(h.cl)
    requires RunsFit(h.cl, [], h.runs) && |SpreadAll(h.cl, [], h.runs)| == h.nl + h.nd && Legal(LitOf(h))
    requires s < h.nd && DistOf(h) == seq(h.nd, i => if i == s then 1 else 0)
    requires HeadFits(h) ==> At(bits, pos, HeadBits(h))
    ensures HeadFits(h) && SetUp(bits, pos) == Ready(LitOf(h), DistOf(h), pos + |HeadBits(h)|)
  {
    hide At, HeadBits, SetUp, RunsFit, SpreadAll, ClFits;
    OneKraft(h.nd, s);
    var d := DistOf(h);
    forall i | 0 <= i < |d| ensures d[i] <= 1 {}
    assert Legal(d) by { HalfFull(); }
    HeadRead(h, bits, pos);
  }

  lemma HalfFull()
    ensures Pow2(BMAX - 1) < Pow2(BMAX)
  {
    Pow2Mono(BMAX - 1, BMAX);
  }

  lemma {:induction false} OneKraft(n: nat, s: nat)
    ensures Kraft(seq(n, i => if i == s then 1 else 0)) == if s < n then Pow2(BMAX - 1) else 0
  {
    hide Pow2;
    if n > 0 {
      var d := seq(n, i => if i == s then 1 else 0);
      OneKraft(n - 1, s);
      assert d[..n - 1] == seq(n - 1, i => if i == s then 1 else 0);
    }
  }

  // Two of the counts a dynamic block can give are refused for each set.
  lemma SizesRefused(bits: seq<bool>, pos: nat, out: seq<byte>)
    ensures SetUp(bits, pos).BadSizes? <==>
            pos + 14 <= |bits| && (Field(bits, pos, 5) in {30, 31} || Field(bits, pos + 5, 5) in {30, 31})
    ensures SetUp(bits, pos).BadSizes? ==> Finish(SetUp(bits, pos), bits, out) == BadData(1, out)
  {
    hide Num, WithLengths, ClLens;
    if pos + 14 <= |bits| {
      FieldBound(bits, pos, 5);
      FieldBound(bits, pos + 5, 5);
      SmallPowers();
      FourBits(bits, pos + 10);
    }
  }

  // A run that goes past the end is refused.
  lemma RunRefused(cl: seq<nat>, bits: seq<bool>, pos: nat, total: nat, acc: seq<nat>, r: Run)
    requires Proper(cl) && RunFits(cl, acc, r) && At(bits, pos, RunBits(cl, acc, r))
    requires |acc| < total < |Spread(acc, r)|
    ensures pos <= |bits| && ReadLens(cl, bits, pos, total, acc) == LensBad
  {
    hide At, CodeBits, FieldBits, Decode, Proper, Num;
    SmallPowers();
    AtWithin(bits, pos, RunBits(cl, acc, r));
    match r
    case Again(n) =>
      AtParts(bits, pos, CodeBits(cl, 16), FieldBits(n - 3, 2));
      SymbolRead(cl, 16, bits, pos);
      FieldRead(bits, pos + cl[16], n - 3, 2);
    case Blanks(n) =>
      var sym, x, k := if n <= 10 then 17 else 18, if n <= 10 then n - 3 else n - 11, if n <= 10 then 3 else 7;
      AtParts(bits, pos, CodeBits(cl, sym), FieldBits(x, k));
      SymbolRead(cl, sym, bits, pos);
      FieldRead(bits, pos + cl[sym], x, k);
  }

  // So are the two literal/length symbols that stand for nothing,
  lemma SymbolRefused(lit: seq<nat>, dist: seq<nat>, sym: nat, bits: seq<bool>, pos: nat, out: seq<byte>)
    requires Proper(lit) && Has(lit, sym) && At(bits, pos, CodeBits(lit, sym)) && sym in {286, 287}
    ensures CodeStep(lit, dist, bits, pos, out) == End(BadData(1, out))
  {
    hide At, CodeBits, Decode, Proper;
    SymbolRead(lit, sym, bits, pos);
  }

  // and the two distance symbols.
  lemma DistanceRefused(dist: seq<nat>, sym: nat, n: nat, bits: seq<bool>, pos: nat, out: seq<byte>)
    requires Proper(dist) && Has(dist, sym) && At(bits, pos, CodeBits(dist, sym)) && sym in {30, 31}
    ensures pos <= |bits| && DistanceStep(dist, bits, pos, n, out) == End(BadData(1, out))
  {
    hide At, CodeBits, Decode, Proper;
    AtWithin(bits, pos, CodeBits(dist, sym));
    SymbolRead(dist, sym, bits, pos);
  }

  // A stored block whose second count is not the complement of the first is refused, and so are
  // blocks of the fourth kind.
  lemma BlockRefused(bits: seq<bool>, pos: nat, last: bool, kind: nat, a: nat, b: nat, out: seq<byte>)
    requires kind in {0, 3} && a < 65536 && b < 65536 && (kind == 0 ==> a != 65535 - b)
    requires At(bits, pos, [last] + (FieldBits(kind, 2) + (Padding(pos + 3) + (FieldBits(a, 16) + FieldBits(b, 16)))))
    ensures OneBlock(bits, pos, out) == BadData(if kind == 0 then 1 else 2, out)
  {
    hide At, FieldBits, Padding, Num, Bytes, Codes, SetUp, ByteAlign;
    SmallPowers();
    var f := FieldBits(a, 16) + FieldBits(b, 16);
    var p := ByteAlign(pos + 3);
    Aligned(pos + 3);
    AtParts(bits, pos, [last], FieldBits(kind, 2) + (Padding(pos + 3) + f));
    AtParts(bits, pos + 1, FieldBits(kind, 2), Padding(pos + 3) + f);
    FieldRead(bits, pos + 1, kind, 2);
    AtParts(bits, pos + 3, Padding(pos + 3), f);
    AtParts(bits, p, FieldBits(a, 16), FieldBits(b, 16));
    FieldRead(bits, p, a, 16);
    FieldRead(bits, p + 16, b, 16);
  }
}
