// inflate_codes, inflate_stored, inflate_fixed, inflate_dynamic, inflate_block and
// inflate of loader/src/inflate.c, against the reference decoder.
module Inflate {
  import opened Bits
  import opened Canonical
  import opened HeapLayout
  import opened Alloc
  import opened Tables
  import opened BuildInvariant
  import opened BuildLoop
  import opened HuftStore
  import opened Huffman
  import opened Deflate
  import opened CodeTables
  import opened BitReader
  import opened Window
  import opened RamMemory
  import opened Pace

  // ---- a walk through the tables, on the stream ----

  // Looking up the bits from p to q of a stream.
  ghost function LookupAt(T: Tabs, t: int, lb: nat, s: seq<bool>, p: nat, q: nat): Option<Leaf>
    requires p <= q <= |s|
  {
    Lookup(T, t, lb, s[p..q])
  }

  lemma LookupStep(T: Tabs, t: int, lb: nat, s: seq<bool>, p: nat, q: nat)
    requires p <= q <= |s| && LookupAt(T, t, lb, s, p, q).Some?
    ensures t in T && p + lb <= q && Num(s[p..p + lb]) < |T[t].ent|
    ensures var r, x := T[t].ent[Num(s[p..p + lb])], LookupAt(T, t, lb, s, p, q).value;
            && r.b <= lb
            && (IsLeaf(r) ==> x == Leaf(r.e, r.v, r.b))
            && (!IsLeaf(r) ==>
                  && r.b > 0 && x.used >= r.b
                  && LookupAt(T, r.v, r.e - 16, s, p + r.b, q) == Some(Leaf(x.e, x.v, x.used - r.b)))
  {
    hide Num;
    SliceTake(s, p, q, lb);
    var r := T[t].ent[Num(s[p..p + lb])];
    SliceDrop(s, p, q, r.b);
  }

  // The next bits of the stream are those of the data.
  lemma DataIs(s: seq<bool>, lim: nat, p: nat, q: nat)
    requires p <= q <= lim <= |s|
    ensures s[..lim][p..q] == s[p..q]
  {
  }

  // A symbol the reference decoder reads is what a table walk over g bits starts with.
  lemma DecodedStarts(lens: seq<nat>, s: seq<bool>, lim: nat, pos: nat, g: nat)
    requires lim + g <= |s| && pos <= lim && Decode(lens, s[..lim], pos).Some?
    requires forall i :: 0 <= i < |lens| ==> lens[i] <= g
    ensures var x := Decode(lens, s[..lim], pos).value;
            x.sym < |lens| && x.len == lens[x.sym] && pos + x.len <= lim && StartsWith(lens, x.sym, s[pos..pos + g])
  {
    hide Be, CodeVal, FindSymbol;
    var x := Decode(lens, s[..lim], pos).value;
    DataIs(s, lim, pos, pos + x.len);
    SliceTake(s, pos, pos + g, x.len);
  }

  // What the table walk gives for the literal/length symbol the reference reads.
  lemma LitStep(T: Tabs, t: int, lb: nat, lens: seq<nat>, g: nat, s: seq<bool>, lim: nat, pos: nat)
    requires LitTable(T, t, lb, lens, g) && lim + g <= |s| && pos <= lim && Decode(lens, s[..lim], pos).Some?
    ensures LookupAt(T, t, lb, s, pos, pos + g).Some?
    ensures var x, d := LookupAt(T, t, lb, s, pos, pos + g).value, Decode(lens, s[..lim], pos).value;
            && d.len > 0 && pos + d.len <= lim
            && (d.sym >= 286 ==> x.e == 99)
            && (d.sym < 286 ==> x.used == d.len)
            && (d.sym < 256 ==> x.e == 16 && x.v == d.sym)
            && (d.sym == 256 ==> x.e == 15)
            && (257 <= d.sym < 286 ==> x.e == LenExtra()[d.sym - 257] && x.v == LenBase()[d.sym - 257])
  {
    hide Lookup, StartsWith, Decode, LenBase, LenExtra, DistBase, DistExtra;
    DecodedStarts(lens, s, lim, pos, g);
    DecodedLen(lens, s[..lim], pos);
    assert LitFinds(T, t, lb, lens, Decode(lens, s[..lim], pos).value.sym, s[pos..pos + g]);
  }

  lemma DecodedLen(lens: seq<nat>, bits: seq<bool>, pos: nat)
    requires Decode(lens, bits, pos).Some?
    ensures Decode(lens, bits, pos).value.len > 0
  {
  }

  lemma DistStep(T: Tabs, t: int, lb: nat, lens: seq<nat>, g: nat, s: seq<bool>, lim: nat, pos: nat)
    requires DistTable(T, t, lb, lens, g) && lim + g <= |s| && pos <= lim && Decode(lens, s[..lim], pos).Some?
    ensures LookupAt(T, t, lb, s, pos, pos + g).Some?
    ensures var x, d := LookupAt(T, t, lb, s, pos, pos + g).value, Decode(lens, s[..lim], pos).value;
            && d.len > 0 && pos + d.len <= lim
            && (d.sym >= 30 ==> x.e == 99)
            && (d.sym < 30 ==> x.used == d.len && x.e == DistExtra()[d.sym] && x.v == DistBase()[d.sym])
  {
    hide Lookup, StartsWith, Decode, LenBase, LenExtra, DistBase, DistExtra;
    DecodedStarts(lens, s, lim, pos, g);
    DecodedLen(lens, s[..lim], pos);
    assert DistFinds(T, t, lb, lens, Decode(lens, s[..lim], pos).value.sym, s[pos..pos + g]);
  }

  // ---- tables left allocated ----

  // An unused code in a block, or a run of lengths that is too long, ends the program's work on the
  // block without freeing its tables.
  ghost predicate BlockLeaks(bits: seq<bool>, pos: nat, out: seq<byte>)
  {
    && pos + 3 <= |bits| && OneBlock(bits, pos, out).BadData?
    && var t := Field(bits, pos + 1, 2);
       t == 1 || (t == 2 && !SetUp(bits, pos + 3).BadSizes?)
  }

  ghost predicate Leaks(bits: seq<bool>, pos: nat, out: seq<byte>)
    decreases |bits| - pos
  {
    var b := OneBlock(bits, pos, out);
    if b.Done? && pos < |bits| && !bits[pos] then Leaks(bits, b.pos, b.out) else BlockLeaks(bits, pos, out)
  }

  lemma LeftBehindOne(T0: Tabs, T: Tabs, live0: map<int, Block>, live: map<int, Block>, ts: seq<int>)
    requires Owned(T0, T, live0, live, ts) && ts != []
    ensures T != T0
  {
    ElementsMember(ts, ts[0]);
  }

  lemma LeftBehind(T0: Tabs, T1: Tabs, T2: Tabs, live0: map<int, Block>, live1: map<int, Block>, live2: map<int, Block>,
                   us: seq<int>, vs: seq<int>)
    requires Owned(T0, T1, live0, live1, us) && Owned(T1, T2, live1, live2, vs) && us != []
    ensures T2 != T0
  {
    ElementsMember(us, us[0]);
  }

  // A block whose codes come to anything has a literal code.
  lemma CodesUse(lit: seq<nat>, dist: seq<nat>, bits: seq<bool>, pos: nat, out: seq<byte>)
    requires Codes(lit, dist, bits, pos, out) != OffSpec
    ensures Longest(lit) > 0
  {
    hide Decode, Longest, MatchStep;
    if Decode(lit, bits, pos).Some? { DecodedIsUsed(lit, bits, pos); }
  }

  class Inflater {
    const reader: Reader
    const o: Output
    const store: Store
    ghost const lim: nat     // compressed data are the first lim bits of zinbuf

    constructor (reader: Reader, o: Output, store: Store, ghost lim: nat)
      ensures this.reader == reader && this.o == o && this.store == store && this.lim == lim
    {
      this.reader, this.o, this.store, this.lim := reader, o, store, lim;
    }

    // The whole memory as bits, and the compressed data.
    ghost function Memory(): seq<bool> { Stream(reader.zinbuf) }

    ghost function Data(): seq<bool>
      requires lim <= 8 * |reader.zinbuf|
    {
      Memory()[..lim]
    }

    // Three more bytes can be read behind the data (a gzip member has eight).
    ghost predicate Room()
    {
      lim + 24 <= 8 * |reader.zinbuf|
    }

    ghost function Where(): Places { Places(reader.addr, |reader.zinbuf|, o.outputData) }

    // Input is read from the memory output goes to.
    ghost predicate Shared()
    {
      reader.mem == o.mem && Sits(o.ram0, reader.addr, reader.zinbuf)
    }

    ghost predicate Valid()
      reads reader, reader.mem, o, o.window, o.mem, store, store.heap
    {
      && Room() && reader.Valid() && 0 <= reader.Pos() <= lim && o.Valid() && store.Valid()
      && Shared()
    }

    // Valid, but for the input that is still to be read.
    ghost predicate Sound()
      reads reader, o, o.window, o.mem, store, store.heap
    {
      && Room() && reader.Buffered() && 0 <= reader.Pos() <= lim && o.Valid() && store.Valid()
      && Shared()
    }

    // The input that has not been read survives the output.
    lemma InputKept()
      requires Sound() && Kept(Where(), reader.Pos(), |o.out|)
      ensures Valid()
    {
      hide Written, Num, Stream, Holds;
      var i := NextByte(reader.Pos());
      FlushedIs(o.outputPtr, o.outcnt);
      ReadAhead(reader.inptr, reader.bk);
      SitsFromStill(o.ram0, o.outputData, o.out[..o.outputPtr], reader.addr, reader.zinbuf, i);
      SitsFromLess(o.mem.bytes, reader.addr, reader.zinbuf, i, reader.inptr);
    }

    // NEEDBITS(lb) and the entry of table t the next lb bits select.
    method Entry(T: Tabs, t: int, lb: nat) returns (r: Huft)
      requires reader.Valid() && lb <= 16 && 0 <= reader.Pos() && reader.Pos() + lb <= 8 * |reader.zinbuf|
      requires t in T && Num(Memory()[reader.Pos()..reader.Pos() + lb]) < |T[t].ent|
      modifies reader
      ensures reader.Valid() && reader.Pos() == old(reader.Pos()) && lb <= reader.bk
      ensures r == T[t].ent[Num(Memory()[reader.Pos()..reader.Pos() + lb])]
    {
      hide Num, Stream, Low, Reader.Valid;
      reader.NeedBits(lb);
      reader.PeekIs(lb);
      r := T[t].ent[Low(reader.bb, lb)];
    }

    // inflate.c:563-572 (and 594-603): e == 99 is the unused code.
    method DecodeSymbol(t: int, bl: nat, ghost g: nat) returns (e: nat, v: int)
      requires reader.Valid() && g <= BMAX && 0 <= reader.Pos() && reader.Pos() + g <= 8 * |reader.zinbuf|
      requires LookupAt(store.tables, t, bl, Memory(), reader.Pos(), reader.Pos() + g).Some?
      modifies reader
      ensures reader.Valid()
      ensures var x := LookupAt(store.tables, t, bl, Memory(), old(reader.Pos()), old(reader.Pos()) + g).value;
              e == x.e && v == x.v && (e != 99 ==> reader.Pos() == old(reader.Pos()) + x.used)
    {
      hide Num, Stream, LookupAt, Low, Reader.Valid;
      var T := store.tables;
      ghost var q, p0 := reader.Pos() + g, reader.Pos();
      ghost var x := LookupAt(T, t, bl, Memory(), p0, q).value;
      var cur, lb := t, bl;
      LookupStep(T, cur, lb, Memory(), reader.Pos(), q);
      var r := Entry(T, cur, lb);
      while r.e > 16
        invariant reader.Valid() && p0 <= reader.Pos() <= q && lb <= reader.bk && r.b <= lb && q - reader.Pos() <= 16
        invariant reader.Pos() - p0 <= x.used
        invariant LookupAt(T, cur, lb, Memory(), reader.Pos(), q) == Some(Leaf(x.e, x.v, x.used - (reader.Pos() - p0)))
        invariant cur in T && reader.Pos() + lb <= q && Num(Memory()[reader.Pos()..reader.Pos() + lb]) < |T[cur].ent|
        invariant r == T[cur].ent[Num(Memory()[reader.Pos()..reader.Pos() + lb])]
        decreases q - reader.Pos()
      {
        LookupStep(T, cur, lb, Memory(), reader.Pos(), q);
        if r.e == 99 { return 99, r.v; }
        reader.DumpBits(r.b);
        cur, lb := r.v, r.e - 16;
        LookupStep(T, cur, lb, Memory(), reader.Pos(), q);
        r := Entry(T, cur, lb);
      }
      LookupStep(T, cur, lb, Memory(), reader.Pos(), q);
      reader.DumpBits(r.b);
      return r.e, r.v;
    }

    // A field of the data.
    method GetField(n: nat) returns (x: nat)
      requires Room() && reader.Valid() && n <= 16 && 0 <= reader.Pos() && reader.Pos() + n <= lim
      modifies reader
      ensures reader.Valid() && reader.Pos() == old(reader.Pos()) + n
      ensures x == Field(Data(), old(reader.Pos()), n) && x < Pow2(n)
    {
      hide Num, Stream, Pow2;
      DataIs(Memory(), lim, reader.Pos(), reader.Pos() + n);
      FieldBound(Data(), reader.Pos(), n);
      x := reader.GetBits(n);
    }

    // inflate.c:588-628: the rest of a match whose length code is lc; false is the return of 1.
    method DoMatch(e: nat, v: nat, td: int, bd: nat, ghost dist: seq<nat>, ghost gd: nat, ghost lc: nat)
      returns (ok: bool)
      requires Valid() && DistTable(store.tables, td, bd, dist, gd) && gd <= BMAX
      requires lc < 29 && e == LenExtra()[lc] && v == LenBase()[lc]
      requires MatchStep(dist, Data(), reader.Pos(), lc, o.out) != End(OffSpec)
      modifies reader, o, o.window, o.mem
      ensures var s := MatchStep(dist, Data(), old(reader.Pos()), lc, old(o.out));
              && (ok <==> s.Next?)
              && (ok ==> Sound() && reader.Pos() == s.pos && o.out == s.out)
    {
      hide Decode, LookupAt, DistTable, Num, Field, Pow2, Stream, LzCopy, Output.Valid, Store.Valid, Reader.Buffered;
      hide SitsFrom, LenBase, LenExtra, DistBase, DistExtra;
      LengthRange(lc);
      var n := GetField(e);
      n := n + v;
      ghost var p, dd := reader.Pos(), Decode(dist, Data(), reader.Pos()).value;
      DistStep(store.tables, td, bd, dist, gd, Memory(), lim, p);
      var de, dv := DecodeSymbol(td, bd, gd);
      DistExtraSmall(dd.sym);
      if de == 99 { return false; }
      var x := GetField(de);
      DistanceRange(dd.sym, x);
      o.CopyMatch(n, dv + x);
      return true;
    }

    // One turn of the loop of inflate_codes (inflate.c:560-629).  If the output of a turn reaches
    // unread input, the state is sound but no longer valid.
    method CodesTurn(tl: int, td: int, bl: nat, bd: nat, ghost lit: seq<nat>, ghost dist: seq<nat>, ghost gl: nat,
                     ghost gd: nat)
      returns (more: bool, r: nat)
      requires Valid() && gl <= BMAX && gd <= BMAX
      requires LitTable(store.tables, tl, bl, lit, gl) && DistTable(store.tables, td, bd, dist, gd)
      requires CodeStep(lit, dist, Data(), reader.Pos(), o.out) != End(OffSpec)
      modifies reader, o, o.window, o.mem
      ensures var s := CodeStep(lit, dist, Data(), old(reader.Pos()), old(o.out));
              && (more <==> s.Next?)
              && (s.Next? ==> Sound() && reader.Pos() == s.pos && o.out == s.out)
              && (s.Next? && Kept(Where(), s.pos, |s.out|) ==> Valid())
              && (s.End? && s.outcome.Done? ==>
                    r == 0 && Valid() && reader.Pos() == s.outcome.pos && o.out == old(o.out))
              && (s.End? && s.outcome.BadData? ==> r == 1)
    {
      hide Decode, LookupAt, LitTable, DistTable, MatchStep, Num, Stream, LzCopy, Output.Valid, Store.Valid;
      hide Reader.Buffered;
      hide SitsFrom, Kept, LenBase, LenExtra, DistBase, DistExtra;
      ghost var start, d := reader.Pos(), Decode(lit, Data(), reader.Pos()).value;
      LitStep(store.tables, tl, bl, lit, gl, Memory(), lim, start);
      ghost var x := LookupAt(store.tables, tl, bl, Memory(), start, start + gl).value;
      var e, v := DecodeSymbol(tl, bl, gl);
      LengthCases(d.sym);
      more, r := true, 0;
      if e == 99 {
        MatchRefused(dist, Data(), start + d.len, d.sym, o.out);
        return false, 1;
      }
      if e == 16 {
        o.Put(v);
      } else if e == 15 {
        return false, 0;
      } else {
        more := DoMatch(e, v, td, bd, dist, gd, d.sym - 257);
        if !more { return false, 1; }
      }
      if Kept(Where(), reader.Pos(), |o.out|) { InputKept(); }
    }

    // inflate_codes: 0 at the end-of-block code, 1 on an unused code.
    method InflateCodes(tl: int, td: int, bl: nat, bd: nat, ghost lit: seq<nat>, ghost dist: seq<nat>, ghost gl: nat,
                        ghost gd: nat)
      returns (r: nat)
      requires Valid() && gl <= BMAX && gd <= BMAX
      requires LitTable(store.tables, tl, bl, lit, gl) && DistTable(store.tables, td, bd, dist, gd)
      requires Codes(lit, dist, Data(), reader.Pos(), o.out) != OffSpec
      requires CodesKept(Where(), lit, dist, Data(), reader.Pos(), o.out)
      modifies reader, o, o.window, o.mem
      ensures var R := Codes(lit, dist, Data(), old(reader.Pos()), old(o.out));
              && (R.Done? ==> r == 0 && Valid() && reader.Pos() == R.pos && o.out == R.out)
              && (R.BadData? ==> r == 1)
    {
      hide CodeStep, LitTable, DistTable, Stream, Output.Valid, Store.Valid, Reader.Valid, Reader.Buffered, Kept;
      ghost var R := Codes(lit, dist, Data(), reader.Pos(), o.out);
      var more := true;
      r := 0;
      while more
        invariant more ==> Valid() && R == Codes(lit, dist, Data(), reader.Pos(), o.out)
        invariant more ==> CodesKept(Where(), lit, dist, Data(), reader.Pos(), o.out)
        invariant !more ==>
                    (R.Done? ==> r == 0 && Valid() && reader.Pos() == R.pos && o.out == R.out)
                    && (R.BadData? ==> r == 1)
        decreases more, lim - reader.Pos()
      {
        more, r := CodesTurn(tl, td, bl, bd, lit, dist, gl, gd);
      }
    }

    // inflate.c:683-685: go to the byte boundary.
    method SkipToByte()
      requires reader.Valid() && 0 <= reader.Pos()
      modifies reader
      ensures reader.Valid() && reader.Pos() == ByteAlign(old(reader.Pos()))
    {
      hide Num, Stream, Sits;
      AlignByBuffer(reader.inptr, reader.bk);
      reader.DumpBits(reader.bk % 8);
    }

    // inflate_stored
    method InflateStored() returns (r: nat)
      requires Valid() && Stored(Data(), reader.Pos(), o.out) != OffSpec
      requires StoredKept(Where(), Data(), reader.Pos(), o.out)
      modifies reader, o, o.window, o.mem
      ensures var R := Stored(Data(), old(reader.Pos()), old(o.out));
              && (R.Done? ==> r == 0 && Valid() && reader.Pos() == R.pos && o.out == R.out)
              && (R.BadData? ==> r == 1)
    {
      hide Num, Field, Pow2, Stream, Bytes, Output.Valid, Store.Valid, Reader.Buffered, SitsFrom, Kept, ByteAlign;
      ghost var p0, out0 := reader.Pos(), o.out;
      SkipToByte();
      ghost var p := reader.Pos();
      var n: int := GetField(16);
      var c: int := GetField(16);
      if n != 65535 - c { return 1; }
      ghost var total := n;
      ghost var i := 0;
      ghost var R := Stored(Data(), old(reader.Pos()), out0);
      assert R == Done(p + 32 + 8 * total, out0 + Bytes(Data(), p + 32, total));
      assert out0 + Bytes(Data(), p + 32, 0) == out0 by { NoBytes(Data(), p + 32); }
      while n > 0
        invariant Valid() && 0 <= n && i + n == total && reader.Pos() == p + 32 + 8 * i && p + 32 + 8 * total <= lim
        invariant o.out == out0 + Bytes(Data(), p + 32, i)
        decreases n
      {
        MoreBytes(Data(), p + 32, i);
        n := n - 1;
        var x := GetField(8);
        PowEight();
        o.Put(x);
        i := i + 1;
        assert KeptAt(Where(), p0, |out0|, i);
        InputKept();
      }
      return 0;
    }

    // ---- blocks with Huffman codes ----

    // Nothing is left allocated.
    twostate predicate Balanced()
      reads store, store.heap
    {
      store.tables == old(store.tables) && store.heap.live == old(store.heap.live)
    }

    // inflate.c:783-791 and 955-963: decompress with both tables, then free them.
    method RunCodes(tl: int, td: int, bl: nat, bd: nat, ghost lit: seq<nat>, ghost dist: seq<nat>, ghost gl: nat,
                    ghost gd: nat,
                    ghost us: seq<int>, ghost vs: seq<int>, ghost T0: Tabs, ghost live0: map<int, Block>,
                      ghost T1: Tabs, ghost live1: map<int, Block>)
      returns (r: nat)
      requires Valid() && gl <= BMAX && gd <= BMAX
      requires LitTable(store.tables, tl, bl, lit, gl) && DistTable(store.tables, td, bd, dist, gd)
      requires Owned(T0, T1, live0, live1, us) && Owned(T1, store.tables, live1, store.heap.live, vs)
      requires tl == Head(us) && td == Head(vs)
      requires Codes(lit, dist, Data(), reader.Pos(), o.out) != OffSpec
      requires CodesKept(Where(), lit, dist, Data(), reader.Pos(), o.out)
      modifies reader, o, o.window, o.mem, store, store.heap
      ensures store.Valid() && store.heap.refusals == old(store.heap.refusals)
      ensures var R := Codes(lit, dist, Data(), old(reader.Pos()), old(o.out));
              && (R.Done? ==> r == 0 && Valid() && reader.Pos() == R.pos && o.out == R.out
                              && store.tables == T0 && store.heap.live == live0)
              && (R.BadData? ==> r == 1 && store.tables == old(store.tables))
    {
      hide Codes, CodesKept, LitTable, DistTable, Owned, Stream, Output.Valid, Reader.Valid, Allocator.Valid;
      r := InflateCodes(tl, td, bl, bd, lit, dist, gl, gd);
      if r != 0 { return 1; }
      ghost var T2, live2 := store.tables, store.heap.live;
      OwnedSwap(T0, T1, T2, live0, live1, live2, us, vs);
      store.HuftFree(tl, us, T2 - Elements(us), live2 - Blocks(us));
      store.HuftFree(td, vs, T0, live0);
      return 0;
    }

    // inflate.c:757-780: the two tables of a fixed block, or 3.
    method FixedTables()
      returns (r: nat, tl: int, td: int, bl: nat, bd: nat, ghost us: seq<int>, ghost vs: seq<int>, ghost T1: Tabs,
              ghost live1: map<int, Block>)
      requires store.Valid()
      modifies store, store.heap
      ensures store.Valid() && store.heap.refusals == old(store.heap.refusals) + if r == 3 then 1 else 0
      ensures (r == 3 && Balanced()) || r == 0
      ensures r == 0 ==>
                LitTable(store.tables, tl, bl, FixedLit(), 9) && DistTable(store.tables, td, bd, FixedDist(), 5)
      ensures r == 0 ==> Owned(old(store.tables), T1, old(store.heap.live), live1, us) && tl == Head(us) && us != []
      ensures r == 0 ==> Owned(T1, store.tables, live1, store.heap.live, vs) && td == Head(vs)
    {
      hide Codes, LitTable, DistTable, Owned, Decodes, Rejects, Verdict, SnugSet, LookupBits, Longest, Useless, Nearest;
      hide Allocator.Valid, Kraft, Pow2, FixedDist;
      ghost var T0, live0 := store.tables, store.heap.live;
      td, bd, vs, T1, live1 := 0, 0, [], T0, live0;
      var l := FixedLengths();
      FixedLitComplete();
      SetsMeaningful(l);
      r, tl, bl, us := HuftBuild(store, l, 257, LenBase(), LenExtra(), 7);
      if r != 0 { return; }
      TwoLevels(l, 7);
      LookupBitsBounds(l, 7);
      LitFromBuild(store.tables, tl, bl, l);
      T1, live1 := store.tables, store.heap.live;
      l := Repeat(5, 30);
      FixedDistVerdict();
      SetsMeaningful(l);
      r, td, bd, vs := HuftBuild(store, l, 0, DistBase(), DistExtra(), 5);
      if r > 1 {
        store.HuftFree(tl, us, T0, live0);
        return;
      }
      TwoLevels(l, 5);
      LookupBitsBounds(l, 5);
      FixedDistTable(store.tables, td, bd);
      LitKept(T1, store.tables, live1, store.heap.live, vs, tl, bl, FixedLit(), 9);
      r := 0;
    }

    // inflate_fixed
    method InflateFixed() returns (r: nat)
      requires Valid() && Codes(FixedLit(), FixedDist(), Data(), reader.Pos(), o.out) != OffSpec
      requires CodesKept(Where(), FixedLit(), FixedDist(), Data(), reader.Pos(), o.out)
      modifies reader, o, o.window, o.mem, store, store.heap
      ensures store.Valid() && store.heap.refusals == old(store.heap.refusals) + if r == 3 then 1 else 0
      ensures var R := Codes(FixedLit(), FixedDist(), Data(), old(reader.Pos()), old(o.out));
              || (r == 3 && Balanced())
              || (R.Done? && r == 0 && Valid() && reader.Pos() == R.pos && o.out == R.out && Balanced())
              || (R.BadData? && r == 1 && !Balanced())
    {
      hide Codes, CodesKept, LitTable, DistTable, Owned, Stream, Output.Valid, Reader.Valid, Allocator.Valid;
      hide FixedLit, FixedDist;
      ghost var T0, live0 := store.tables, store.heap.live;
      var i, tl, td, bl, bd, us, vs, T1, live1 := FixedTables();
      if i != 0 { return i; }
      LeftBehind(T0, T1, store.tables, live0, live1, store.heap.live, us, vs);
      r := RunCodes(tl, td, bl, bd, FixedLit(), FixedDist(), 9, 5, us, vs, T0, live0, T1, live1);
    }

    method FixedLengths() returns (l: seq<nat>)
      ensures l == FixedLit()
    {
      l := [];
      while |l| < 144
        invariant |l| <= 144 && forall i :: 0 <= i < |l| ==> l[i] == 8
      { l := l + [8]; }
      while |l| < 256
        invariant 144 <= |l| <= 256 && forall i :: 0 <= i < |l| ==> l[i] == if i < 144 then 8 else 9
      { l := l + [9]; }
      while |l| < 280
        invariant 256 <= |l| <= 280 && forall i :: 0 <= i < |l| ==>
                  l[i] == if i < 144 then 8 else if i < 256 then 9 else 7
      { l := l + [7]; }
      while |l| < 288
        invariant 280 <= |l| <= 288
        invariant forall i :: 0 <= i < |l| ==> l[i] == if i < 144 then 8 else if i < 256 then 9 else if i < 280 then 7
                  else 8
      { l := l + [8]; }
    }

    // inflate.c:936-963: the two tables of a dynamic block, and its codes.
    method RunDynamic(lit: seq<nat>, dist: seq<nat>) returns (r: nat)
      requires Valid() && 1 <= |lit| <= 286 && 1 <= |dist| <= 30 && AllUpTo(lit, 15) && AllUpTo(dist, 15)
      requires Finish(WithSets(lit, dist, reader.Pos()), Data(), o.out) != OffSpec
      requires FinishKept(Where(), WithSets(lit, dist, reader.Pos()), Data(), o.out)
      modifies reader, o, o.window, o.mem, store, store.heap
      ensures store.Valid() && store.heap.refusals == old(store.heap.refusals) + if r == 3 then 1 else 0
      ensures var R := Finish(WithSets(lit, dist, old(reader.Pos())), Data(), old(o.out));
              || (r == 3 && Balanced())
              || (R.Done? && r == 0 && Valid() && reader.Pos() == R.pos && o.out == R.out && Balanced())
              || (R.BadTables? && r == R.code && Balanced())
              || (R.BadData? && r == R.code && !Balanced())
    {
      hide Codes, CodesKept, LitTable, DistTable, Owned, Decodes, Rejects, Verdict, SnugSet, LookupBits, Longest;
      hide Useless;
      hide Stream, Output.Valid, Reader.Valid, Allocator.Valid, Kraft, Pow2, AllUpTo, LitSet, DistSet;
      hide LenBase, LenExtra, DistBase, DistExtra;
      ghost var T0, live0 := store.tables, store.heap.live;
      DynamicSets(lit, dist);
      var i, tl, bl, us := HuftBuild(store, lit, 257, LenBase(), LenExtra(), 9);
      if i != 0 {
        if i == 1 { store.HuftFree(tl, us, T0, live0); }
        return i;
      }
      LitFromBuild(store.tables, tl, bl, lit);
      ghost var T1, live1 := store.tables, store.heap.live;
      var j, td, bd, vs := HuftBuild(store, dist, 0, DistBase(), DistExtra(), 6);
      if j != 0 {
        if j == 1 { store.HuftFree(td, vs, T1, live1); }
        store.HuftFree(tl, us, T0, live0);
        return j;
      }
      DistFromBuild(store.tables, td, bd, dist);
      LitKept(T1, store.tables, live1, store.heap.live, vs, tl, bl, lit, Longest(lit));
      CodesUse(lit, dist, Data(), reader.Pos(), o.out);
      LeftBehind(T0, T1, store.tables, live0, live1, store.heap.live, us, vs);
      r := RunCodes(tl, td, bl, bd, lit, dist, Longest(lit), Longest(dist), us, vs, T0, live0, T1, live1);
    }

    // inflate.c:863-871: the lengths of the code length code.
    method ReadClLens(nb: nat) returns (cl: seq<nat>)
      requires Room() && reader.Valid() && 0 <= reader.Pos() && nb <= 19 && reader.Pos() + 3 * nb <= lim
      modifies reader
      ensures reader.Valid() && reader.Pos() == old(reader.Pos()) + 3 * nb
      ensures cl == ClLens(Data(), old(reader.Pos()), nb) && AllUpTo(cl, 7)
    {
      hide Num, Field, Pow2, Stream, Reader.Valid;
      ghost var p := reader.Pos();
      cl := seq(19, _ => 0);       // entries past nb are zero
      var j := 0;
      while j < nb
        invariant 0 <= j <= nb && reader.Valid() && reader.Pos() == p + 3 * j
        invariant cl == ClLens(Data(), p, j) && AllUpTo(cl, 7)
      {
        BorderRange(j);
        var x := GetField(3);
        PowThree();
        cl := cl[Border()[j] := x];
        j := j + 1;
      }
    }

    // inflate.c:889-926: one code length symbol, with the run it stands for; false is the return of 1.
    method ReadRun(tl: int, bl: nat, total: nat, l: nat, ll: seq<nat>, ghost cl: seq<nat>) returns (ok: bool, l': nat,
                   ll': seq<nat>)
      requires Room() && reader.Valid() && 0 <= reader.Pos() <= lim
      requires |cl| == 19 && bl == Longest(cl) && 0 < bl <= 7 && Decodes(store.tables, tl, bl, ClSet(cl), bl)
      requires |ll| < total && AllUpTo(ll, 15) && l == LastLen(ll)
      requires ReadLens(cl, Data(), reader.Pos(), total, ll) != LensOff
      modifies reader
      ensures var R := ReadLens(cl, Data(), old(reader.Pos()), total, ll);
              && (ok ==>
                    && reader.Valid() && 0 <= reader.Pos() <= lim && |ll| < |ll'| <= total
                    && R == ReadLens(cl, Data(), reader.Pos(), total, ll') && AllUpTo(ll', 15) && l' == LastLen(ll'))
              && (!ok ==> R == LensBad)
    {
      hide Num, Field, Pow2, Stream, Decode, Decodes, Longest, Reader.Valid, RunBase, RunExtra, RunValue, Repeat, ClSet;
      hide ReadLens, AllUpTo, LastLen;
      ReadLensStep(cl, Data(), reader.Pos(), total, ll);
      var j := ReadSymbol(tl, bl, cl);
      if j < 16 {
        LensPush(ll, j);
        return true, j, ll + [j];
      }
      RunBits(j, ll);
      var x := GetField(RunExtra(j));
      var n := RunBase(j) + x;
      if |ll| + n > total { return false, l, ll; }
      l' := if j == 16 then l else 0;
      RepeatFacts(ll, l', n);
      return true, l', ll + Repeat(l', n);
    }

    // inflate.c:883-927
    method ReadLengths(tl: int, bl: nat, total: nat, ghost cl: seq<nat>) returns (ok: bool, ll: seq<nat>)
      requires Room() && reader.Valid() && 0 <= reader.Pos() <= lim
      requires |cl| == 19 && bl == Longest(cl) && 0 < bl <= 7 && Decodes(store.tables, tl, bl, ClSet(cl), bl)
      requires ReadLens(cl, Data(), reader.Pos(), total, []) != LensOff
      modifies reader
      ensures var R := ReadLens(cl, Data(), old(reader.Pos()), total, []);
              && (ok ==> reader.Valid() && 0 <= reader.Pos() <= lim && R == Lens(reader.Pos(), ll) && AllUpTo(ll, 15))
              && (!ok ==> R == LensBad)
    {
      hide Num, Field, Pow2, Stream, Decode, Decodes, Longest, Reader.Valid, RunBase, RunExtra, RunValue, Repeat, ClSet;
      hide ReadLens, AllUpTo, LastLen;
      LensEmpty();
      ghost var R := ReadLens(cl, Data(), reader.Pos(), total, []);
      ll := [];
      var l := 0;
      while |ll| < total
        invariant reader.Valid() && 0 <= reader.Pos() <= lim && |ll| <= total && AllUpTo(ll, 15) && l == LastLen(ll)
        invariant R == ReadLens(cl, Data(), reader.Pos(), total, ll)
        decreases total - |ll|
      {
        ok, l, ll := ReadRun(tl, bl, total, l, ll, cl);
        if !ok { return; }
      }
      ReadLensStep(cl, Data(), reader.Pos(), total, ll);
      ok := true;
    }

    // inflate.c:889-892: a single-level lookup.
    method ReadSymbol(tl: int, bl: nat, ghost cl: seq<nat>) returns (j: nat)
      requires Room() && reader.Valid() && 0 <= reader.Pos() <= lim
      requires |cl| == 19 && bl == Longest(cl) && 0 < bl <= 7 && Decodes(store.tables, tl, bl, ClSet(cl), bl)
      requires Decode(cl, Data(), reader.Pos()).Some?
      modifies reader
      ensures var d := Decode(cl, Data(), old(reader.Pos())).value;
              && j == d.sym < 19 && reader.Valid() && d.len > 0
              && reader.Pos() == old(reader.Pos()) + d.len <= lim
    {
      hide Num, Stream, Low, Reader.Valid, Decode;
      ClStep(store.tables, tl, bl, cl, Memory(), lim, reader.Pos());
      reader.NeedBits(bl);
      reader.PeekIs(bl);
      var td := store.tables[tl].ent[Low(reader.bb, bl)];
      reader.DumpBits(td.b);
      return td.v;
    }

    // inflate.c:873-934: the lengths of both sets, by the code length code.
    method CodeLengths(cl: seq<nat>, total: nat) returns (r: nat, ll: seq<nat>)
      requires Room() && reader.Valid() && 0 <= reader.Pos() <= lim && store.Valid()
      requires |cl| == 19 && AllUpTo(cl, 7) && total > 0
      requires Verdict(cl) == 0 ==> ReadLens(cl, Data(), reader.Pos(), total, []) != LensOff
      modifies reader, store, store.heap
      ensures store.Valid() && store.heap.refusals == old(store.heap.refusals) + if r == 3 then 1 else 0
      ensures var R := ReadLens(cl, Data(), old(reader.Pos()), total, []);
              || (r == 3 && Balanced())
              || (r == Verdict(cl) != 0 && Balanced())
              || (r == 1 && Verdict(cl) == 0 && R == LensBad && !Balanced())
              || (r == 0 && Verdict(cl) == 0 && Balanced() && reader.Valid() && 0 <= reader.Pos() <= lim
                  && R == Lens(reader.Pos(), ll) && AllUpTo(ll, 15))
    {
      hide Codes, Decodes, Owned, Verdict, SnugSet, LookupBits, Longest, Useless, Nearest, Stream, Reader.Valid;
      hide Allocator.Valid, AllUpTo, ClSet, ReadLens;
      ghost var T0, live0 := store.tables, store.heap.live;
      ClFacts(cl, Data(), reader.Pos(), total);
      ll := [];
      var i, tl, bl, us := HuftBuild(store, cl, 19, [], [], 7);
      if i != 0 {
        if i == 1 { store.HuftFree(tl, us, T0, live0); }
        return i, ll;
      }
      var ok;
      ok, ll := ReadLengths(tl, bl, total, cl);
      if !ok {
        LeftBehindOne(T0, store.tables, live0, store.heap.live, us);
        return 1, ll;
      }
      store.HuftFree(tl, us, T0, live0);
      r := 0;
    }

    // inflate.c:873-964: everything behind the lengths of the code length code.
    method DynamicLengths(cl: seq<nat>, nl: nat, nd: nat) returns (r: nat)
      requires Valid() && |cl| == 19 && AllUpTo(cl, 7) && 1 <= nl <= 286 && 1 <= nd <= 30
      requires Finish(WithLengths(cl, nl, nl + nd, Data(), reader.Pos()), Data(), o.out) != OffSpec
      requires FinishKept(Where(), WithLengths(cl, nl, nl + nd, Data(), reader.Pos()), Data(), o.out)
      modifies reader, o, o.window, o.mem, store, store.heap
      ensures store.Valid() && store.heap.refusals == old(store.heap.refusals) + if r == 3 then 1 else 0
      ensures var R := Finish(WithLengths(cl, nl, nl + nd, Data(), old(reader.Pos())), Data(), old(o.out));
              || (r == 3 && Balanced())
              || (R.Done? && r == 0 && Valid() && reader.Pos() == R.pos && o.out == R.out && Balanced())
              || (R.BadTables? && r == R.code && Balanced())
              || (R.BadData? && r == R.code && !Balanced())
    {
      hide Codes, Verdict, Stream, Output.Valid, Reader.Valid, Finish;
      hide Allocator.Valid, AllUpTo, WithSets, ReadLens, WithLengths, CodesKept, FinishKept;
      LengthsLead(cl, nl, nl + nd, Data(), reader.Pos(), o.out);
      var ll;
      r, ll := CodeLengths(cl, nl + nd);
      if r != 0 { return; }
      SplitUpTo(ll, nl, 15);
      r := RunDynamic(ll[..nl], ll[nl..]);
    }

    // inflate_dynamic
    method InflateDynamic() returns (r: nat)
      requires Valid() && Finish(SetUp(Data(), reader.Pos()), Data(), o.out) != OffSpec
      requires FinishKept(Where(), SetUp(Data(), reader.Pos()), Data(), o.out)
      modifies reader, o, o.window, o.mem, store, store.heap
      ensures store.Valid() && store.heap.refusals == old(store.heap.refusals) + if r == 3 then 1 else 0
      ensures var S, R := SetUp(Data(), old(reader.Pos())), Finish(SetUp(Data(), old(reader.Pos())), Data(),
              old(o.out));
              || (r == 3 && Balanced())
              || (R.Done? && r == 0 && Valid() && reader.Pos() == R.pos && o.out == R.out && Balanced())
              || (R.BadTables? && r == R.code && Balanced())
              || (R.BadData? && r == R.code && (Balanced() <==> S.BadSizes?))
    {
      hide Codes, Stream, Output.Valid, Reader.Valid, Store.Valid, Field, Pow2, AllUpTo, WithLengths, ClLens, CodesKept;
      PowFour();
      var nl := GetField(5);
      var nd := GetField(5);
      var nb := GetField(4);
      nl, nd, nb := nl + 257, nd + 1, nb + 4;
      if nl > 286 || nd > 30 { return 1; }
      var cl := ReadClLens(nb);
      r := DynamicLengths(cl, nl, nd);
    }

    // inflate_block: the last-block flag and the result.
    method InflateBlock() returns (e: nat, r: nat)
      requires Valid() && OneBlock(Data(), reader.Pos(), o.out) != OffSpec
      requires BlockKept(Where(), Data(), reader.Pos(), o.out)
      modifies reader, o, o.window, o.mem, store, store.heap
      ensures store.heap.refusals == old(store.heap.refusals) + if r == 3 then 1 else 0
      ensures store.Valid() && old(reader.Pos()) < lim && (e != 0 <==> Data()[old(reader.Pos())])
      ensures var R := OneBlock(Data(), old(reader.Pos()), old(o.out));
              || (r == 3 && Balanced())
              || (R.Done? && r == 0 && Valid() && reader.Pos() == R.pos && o.out == R.out && Balanced())
              || (R.BadTables? && r == R.code && Balanced())
              || (R.BadData? && r == R.code && (Balanced() <==> !BlockLeaks(Data(), old(reader.Pos()), old(o.out))))
      ensures Balanced() ==> HeapSame()
    {
      hide Codes, SetUp, Stored, FixedLit, FixedDist, Stream, Output.Valid, Reader.Valid, Allocator.Valid, Field, Pow2;
      hide CodesKept, StoredKept, FinishKept;
      OneBit(Data(), reader.Pos());
      e := GetField(1);
      var t := GetField(2);
      if t == 2 {
        r := InflateDynamic();
      } else if t == 0 {
        r := InflateStored();
      } else if t == 1 {
        r := InflateFixed();
      } else {
        r := 2;
      }
      SameLayout();
    }

    // inflate: 0 exactly when the reference decoder accepts the data, and then the
    // output is in memory, the input index is at the first byte not used, and the heap
    // is as it was; 3 exactly when malloc had no memory for a table.
    method Run() returns (r: nat)
      requires Room() && 8 * reader.inptr <= lim && o.Valid() && o.out == [] && store.Valid()
      requires Shared() && SitsFrom(o.mem.bytes, reader.addr, reader.zinbuf, reader.inptr)
      requires Inflated(Data(), 8 * reader.inptr, []) != OffSpec
      requires InflatedKept(Where(), Data(), 8 * reader.inptr, [])
      modifies reader, o, o.window, o.mem, store, store.heap
      ensures store.Valid() && store.heap.refusals == old(store.heap.refusals) + if r == 3 then 1 else 0
      ensures var R := Inflated(Data(), 8 * old(reader.inptr), []);
              || (r == 3 && Balanced())
              || (R.Done? && r == 0 && Balanced() && reader.inptr == (R.pos + 7) / 8
                  && o.outputPtr == |R.out| && o.mem.bytes == Written(o.ram0, o.outputData, R.out))
              || (R.BadTables? && r == R.code && Balanced())
              || (R.BadData? && r == R.code && (Balanced() <==> !Leaks(Data(), 8 * old(reader.inptr), [])))
      ensures Balanced() ==> HeapSame()
    {
      hide OneBlock, Stream, Output.Filled, Reader.Valid, Allocator.Valid, Written, BlockKept, BlockLeaks;
      reader.Restart();
      ghost var R := Inflated(Data(), reader.Pos(), []);
      var e := 0;
      while e == 0
        invariant store.Valid() && Balanced() && store.heap.refusals == old(store.heap.refusals)
        invariant e == 0 ==> Valid() && Inflated(Data(), reader.Pos(), o.out) == R
        invariant e == 0 ==> InflatedKept(Where(), Data(), reader.Pos(), o.out)
        invariant e == 0 ==> (Leaks(Data(), reader.Pos(), o.out) <==> Leaks(Data(), 8 * old(reader.inptr), []))
        invariant e != 0 ==> Valid() && R == Done(reader.Pos(), o.out)
        decreases if e == 0 then 1 else 0, lim - reader.Pos()
      {
        e, r := InflateBlock();
        if r != 0 {
          SameLayout();
          return;
        }
      }
      reader.GiveBack();
      o.FlushWindow();
      SameLayout();
      return 0;
    }

    // The free list and Availmem are what they were.
    twostate predicate HeapSame()
      reads store, store.heap
    {
      && store.heap.layout == old(store.heap.layout)
      && (old(store.heap.allocp) != 0 && store.heap.allocp != 0 ==> store.heap.availmem == old(store.heap.availmem))
    }

    // The tables that stay allocated determine the heap.
    twostate lemma SameLayout()
      requires old(store.heap.Valid()) && store.heap.Valid()
      ensures Balanced() ==> HeapSame()
    {
      if Balanced() {
        LayoutByLive(store.heap.live, old(store.heap.layout), store.heap.layout, store.heap.heap);
      }
    }
  }

  ghost predicate AllUpTo(s: seq<nat>, n: nat)
  {
    forall i :: 0 <= i < |s| ==> s[i] <= n
  }

  // The last length read, 0 before the first.
  function LastLen(ll: seq<nat>): nat { if ll == [] then 0 else ll[|ll| - 1] }

  lemma LensEmpty()
    ensures AllUpTo([], 15) && LastLen([]) == 0
  {
  }

  lemma LensPush(ll: seq<nat>, j: nat)
    requires AllUpTo(ll, 15) && j <= 15
    ensures AllUpTo(ll + [j], 15) && LastLen(ll + [j]) == j
  {
  }

  // One code length symbol of the reference decoder.
  lemma ReadLensStep(cl: seq<nat>, bits: seq<bool>, pos: nat, total: nat, acc: seq<nat>)
    requires |acc| <= total && pos <= |bits|
    ensures |acc| == total ==> ReadLens(cl, bits, pos, total, acc) == Lens(pos, acc)
    ensures |acc| < total && ReadLens(cl, bits, pos, total, acc) != LensOff ==>
              Decode(cl, bits, pos).Some?
    ensures |acc| < total && ReadLens(cl, bits, pos, total, acc) != LensOff ==>
              var d := Decode(cl, bits, pos).value;
              var p := pos + d.len;
              && p <= |bits|
              && (d.sym < 16 ==> ReadLens(cl, bits, pos, total, acc) == ReadLens(cl, bits, p, total, acc + [d.sym]))
              && (d.sym >= 16 ==>
                    && p + RunExtra(d.sym) <= |bits|
                    && var n := RunBase(d.sym) + Field(bits, p, RunExtra(d.sym));
                       ReadLens(cl, bits, pos, total, acc) ==
                         if |acc| + n > total then LensBad
                         else ReadLens(cl, bits, p + RunExtra(d.sym), total, acc + Repeat(RunValue(d.sym, acc), n)))
  {
    hide Field, Repeat, RunValue, RunExtra, RunBase;
  }

  lemma SplitUpTo(s: seq<nat>, k: nat, n: nat)
    requires AllUpTo(s, n) && k <= |s|
    ensures AllUpTo(s[..k], n) && AllUpTo(s[k..], n)
  {
  }

  lemma {:induction false} LongestUpTo(s: seq<nat>, n: nat)
    requires AllUpTo(s, n)
    ensures Longest(s) <= n
  {
    if s != [] { LongestUpTo(s[..|s| - 1], n); }
  }

  // The parameters of a dynamic block suit huft_build.
  lemma DynamicSets(lit: seq<nat>, dist: seq<nat>)
    requires |lit| <= 286 && |dist| <= 30 && AllUpTo(lit, 15) && AllUpTo(dist, 15)
    ensures Meaningful(LitSet(lit)) && Meaningful(DistSet(dist))
    ensures Longest(lit) <= 15 && Longest(dist) <= 15
    ensures Longest(lit) > 0 ==> SnugSet(lit, LookupBits(lit, 9))
    ensures Longest(dist) > 0 && Verdict(dist) == 0 ==> SnugSet(dist, LookupBits(dist, 6))
    ensures LitSet(lit) == CodeSet(lit, 257, LenBase(), LenExtra())
    ensures DistSet(dist) == CodeSet(dist, 0, DistBase(), DistExtra())
  {
    hide Longest, SnugSet, LookupBits, Verdict, Meaningful;
    LongestUpTo(lit, 15);
    LongestUpTo(dist, 15);
    SetsMeaningful(lit);
    SetsMeaningful(dist);
    if Longest(lit) > 0 { TwoLevels(lit, 9); }
    if Longest(dist) > 0 && Verdict(dist) == 0 { DistSnug(dist); }
  }

  // Where the code length code leads.
  lemma LengthsLead(cl: seq<nat>, nl: nat, total: nat, bits: seq<bool>, pos: nat, out: seq<byte>)
    requires nl <= total && pos <= |bits|
    ensures var s, r := WithLengths(cl, nl, total, bits, pos), ReadLens(cl, bits, pos, total, []);
            && (Verdict(cl) != 0 ==> Finish(s, bits, out) == BadTables(Verdict(cl), out))
            && (Verdict(cl) == 0 && r == LensOff ==> Finish(s, bits, out) == OffSpec)
            && (Verdict(cl) == 0 && r == LensBad ==> Finish(s, bits, out) == BadData(1, out))
            && (Verdict(cl) == 0 && r.Lens? ==> s == WithSets(r.lens[..nl], r.lens[nl..], r.pos))
  {
    hide Verdict, ReadLens, Codes, WithSets;
  }

  // The code length table is a single table indexed by the longest length.
  lemma ClFacts(cl: seq<nat>, bits: seq<bool>, pos: nat, total: nat)
    requires |cl| == 19 && AllUpTo(cl, 7) && total > 0 && pos <= |bits|
    ensures Meaningful(CodeSet(cl, 19, [], [])) && ClSet(cl) == CodeSet(cl, 19, [], [])
    ensures ReadLens(cl, bits, pos, total, []) != LensOff ==> Longest(cl) > 0
    ensures Longest(cl) <= 7
    ensures Longest(cl) > 0 ==> LookupBits(cl, 7) == Longest(cl) && SnugSet(cl, LookupBits(cl, 7))
  {
    hide Longest, SnugSet, Decode;
    LongestUpTo(cl, 7);
    SetsMeaningful(cl);
    if Longest(cl) > 0 {
      TwoLevels(cl, 7);
      LookupBitsBounds(cl, 7);
    }
    if Decode(cl, bits, pos).Some? { DecodedIsUsed(cl, bits, pos); }
  }

  lemma DecodedIsUsed(lens: seq<nat>, bits: seq<bool>, pos: nat)
    requires Decode(lens, bits, pos).Some?
    ensures Longest(lens) > 0
  {
    LongestBounds(lens, Decode(lens, bits, pos).value.sym);
  }

  // The first table gives the code length symbol the reference reads.
  lemma ClStep(T: Tabs, t: int, lb: nat, cl: seq<nat>, s: seq<bool>, lim: nat, pos: nat)
    requires |cl| == 19 && lb == Longest(cl) && Decodes(T, t, lb, ClSet(cl), lb)
    requires lim + lb <= |s| && pos <= lim && Decode(cl, s[..lim], pos).Some?
    ensures t in T && Num(s[pos..pos + lb]) < |T[t].ent|
    ensures var r, d := T[t].ent[Num(s[pos..pos + lb])], Decode(cl, s[..lim], pos).value;
            r.b == d.len <= lb && r.v == d.sym < 19 && d.len > 0 && pos + d.len <= lim
  {
    hide Num, StartsWith, Decode, Longest;
    AllBelowLongest(cl);
    DecodedStarts(cl, s, lim, pos, lb);
    DecodedLen(cl, s[..lim], pos);
    var bs := s[pos..pos + lb];
    assert Finds(T, t, lb, ClSet(cl), Decode(cl, s[..lim], pos).value.sym, bs);
    assert bs[..lb] == bs;
  }

  lemma OneBit(bits: seq<bool>, pos: nat)
    requires pos + 1 <= |bits|
    ensures Field(bits, pos, 1) != 0 <==> bits[pos]
  {
    assert bits[pos..pos + 1] == [bits[pos]];
    assert Num([bits[pos]]) == (if bits[pos] then 1 else 0) + 2 * Num([]);
  }

  lemma BorderRange(j: nat)
    requires j < 19
    ensures Border()[j] < 19
  {
  }

  lemma PowThree()
    ensures Pow2(3) == 8
  {
    SmallPowers();
  }

  lemma PowFour()
    ensures Pow2(4) == 16 && Pow2(5) == 32
  {
    SmallPowers();
  }

  lemma RunBits(j: nat, acc: seq<nat>)
    ensures RunExtra(j) <= 7 && RunBase(j) >= 3
    ensures RunValue(j, acc) == if j == 16 then LastLen(acc) else 0
  {
  }

  lemma RepeatFacts(ll: seq<nat>, l: nat, n: nat)
    requires n >= 1
    ensures var r := ll + Repeat(l, n);
            && |r| == |ll| + n && LastLen(r) == l
            && (AllUpTo(ll, 15) && (l == LastLen(ll) || l == 0) ==> AllUpTo(r, 15))
  {
  }

  // Tables built later do not disturb a lookup.
  lemma {:induction false} LookupKept(T: Tabs, T': Tabs, t: int, lb: nat, bs: seq<bool>)
    requires Lookup(T, t, lb, bs).Some? && forall q :: q in T ==> q in T' && T'[q] == T[q]
    ensures Lookup(T', t, lb, bs) == Lookup(T, t, lb, bs)
    decreases |bs|
  {
    hide Num;
    var r := T[t].ent[Num(bs[..lb])];
    if !IsLeaf(r) { LookupKept(T, T', r.v, r.e - 16, bs[r.b..]); }
  }

  lemma LitKept(T: Tabs, T': Tabs, live: map<int, Block>, live': map<int, Block>, vs: seq<int>, t: int, lb: nat,
                lens: seq<nat>, g: nat)
    requires LitTable(T, t, lb, lens, g) && Owned(T, T', live, live', vs)
    ensures LitTable(T', t, lb, lens, g)
  {
    hide IsCode, LenBase, LenExtra;
    forall sym: nat, bs | |bs| == g && StartsWith(lens, sym, bs) ensures LitFinds(T', t, lb, lens, sym, bs) {
      assert LitFinds(T, t, lb, lens, sym, bs);
      LookupKept(T, T', t, lb, bs);
    }
  }

  // The whole bytes left in the bit buffer start at the next byte boundary.
  lemma AlignByBuffer(inptr: nat, bk: nat)
    requires bk <= 8 * inptr
    ensures 8 * inptr - bk + bk % 8 == ByteAlign(8 * inptr - bk)
  {
    var q, r := bk / 8, bk % 8;
    var n, pos := inptr - q, 8 * inptr - bk;
    assert bk == 8 * q + r;
    assert pos + 7 == 8 * n + (7 - r);
    assert (pos + 7) / 8 == n;
  }

  // The bytes behind the consumed bits that are not in the bit buffer are not read yet.
  lemma ReadAhead(inptr: nat, bk: nat)
    requires bk <= 8 * inptr
    ensures NextByte(8 * inptr - bk) <= inptr
  {
  }

  lemma FlushedIs(ptr: nat, cnt: nat)
    requires ptr % WSIZE == 0 && cnt < WSIZE
    ensures Flushed(ptr + cnt) == ptr
  {
  }

  lemma NoBytes(bits: seq<bool>, pos: nat)
    requires pos <= |bits|
    ensures Bytes(bits, pos, 0) == []
  {
  }

  lemma MoreBytes(bits: seq<bool>, pos: nat, i: nat)
    requires pos + 8 * (i + 1) <= |bits|
    ensures Field(bits, pos + 8 * i, 8) < 256
    ensures Bytes(bits, pos, i + 1) == Bytes(bits, pos, i) + [Field(bits, pos + 8 * i, 8)]
  {
    NumBound(bits[pos + 8 * i..pos + 8 * i + 8]);
    PowEight();
  }

  lemma PowEight()
    ensures Pow2(8) == 256
  {
    SmallPowers();
  }

  lemma LengthCases(sym: nat)
    ensures 257 <= sym < 286 ==> LenExtra()[sym - 257] <= 5 && LenBase()[sym - 257] >= 3
  {
  }

  lemma MatchRefused(dist: seq<nat>, bits: seq<bool>, pos: nat, sym: nat, out: seq<byte>)
    requires sym >= 286 && pos <= |bits|
    ensures MatchStep(dist, bits, pos, sym - 257, out) == End(BadData(1, out))
  {
  }

  lemma DistExtraSmall(ds: nat)
    ensures ds < 30 ==> DistExtra()[ds] <= 13
  {
  }
}
