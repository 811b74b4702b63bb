// gz_decompress of loader/src/inflate.c: the gzip member header (section 2.3 of
// RFC 1952), and inflation of what follows.
module Gzip {
  import opened Bits
  import opened Canonical
  import opened HuftStore
  import opened Deflate
  import opened BitReader
  import opened Window
  import opened RamMemory
  import opened Pace
  import opened Inflate

  // ---- the format ----

  // A header the loader accepts.  The second magic byte is 0x8b or the old 0x9e; rest is
  // the time stamp, the extra flags and the operating system.
  datatype Header = Header(magic: byte, text: bool, rest: seq<byte>,
                           extra: Option<seq<byte>>, name: Option<seq<byte>>, comment: Option<seq<byte>>)

  ghost predicate ZeroFree(s: seq<byte>) { forall i :: 0 <= i < |s| ==> s[i] != 0 }

  ghost predicate WellFormed(h: Header)
  {
    && (h.magic == 0x8b || h.magic == 0x9e) && |h.rest| == 6
    && (h.extra.Some? ==> |h.extra.value| < 65536)
    && (h.name.Some? ==> ZeroFree(h.name.value))
    && (h.comment.Some? ==> ZeroFree(h.comment.value))
  }

  function FlagByte(h: Header): byte
  {
    (if h.text then 1 else 0) + (if h.extra.Some? then 4 else 0) + (if h.name.Some? then 8 else 0)
    + (if h.comment.Some? then 16 else 0)
  }

  function ExtraBytes(x: Option<seq<byte>>): seq<byte>
    requires x.Some? ==> |x.value| < 65536
  {
    if x.None? then [] else [|x.value| % 256, |x.value| / 256] + x.value
  }

  function TextBytes(x: Option<seq<byte>>): seq<byte>
  {
    if x.None? then [] else x.value + [0]
  }

  function HeaderBytes(h: Header): seq<byte>
    requires WellFormed(h)
  {
    [0x1f, h.magic, 8, FlagByte(h)] + h.rest + ExtraBytes(h.extra) + TextBytes(h.name) + TextBytes(h.comment)
  }

  // ---- reading it ----

  // Where the compressed data start.  Short: the header does not end within the bytes.
  datatype Skipped = Body(at: nat) | Refused | Short

  // Bit k of a flag byte, given 2^k.
  predicate Flag(f: byte, weight: nat)
    requires weight > 0
  {
    f / weight % 2 == 1
  }

  // Past an extra field at i.
  function SkipExtra(z: seq<byte>, i: nat): Option<nat>
  {
    if i + 2 > |z| then None
    else
      var lo: int, hi: int := z[i], z[i + 1];
      var len := lo + 256 * hi;
      if i + 2 + len > |z| then None else Some(i + 2 + len)
  }

  // Past a zero-terminated string at i.
  function SkipText(z: seq<byte>, i: nat): Option<nat>
    decreases |z| - i
  {
    if i >= |z| then None else if z[i] == 0 then Some(i + 1) else SkipText(z, i + 1)
  }

  function SkipNames(z: seq<byte>, i: nat, f: byte): Option<nat>
  {
    var n := if Flag(f, 8) then SkipText(z, i) else Some(i);
    if n.None? then None else if Flag(f, 16) then SkipText(z, n.value) else n
  }

  predicate BadFlags(f: byte) { Flag(f, 32) || Flag(f, 2) || Flag(f, 64) || Flag(f, 128) }

  function SkipHeader(z: seq<byte>): Skipped
  {
    if |z| < 3 then Short
    else if z[0] != 0x1f || (z[1] != 0x8b && z[1] != 0x9e) || z[2] != 8 then Refused
    else if |z| < 4 then Short
    else if BadFlags(z[3]) then Refused
    else if |z| < 10 then Short
    else
      var x := if Flag(z[3], 4) then SkipExtra(z, 10) else Some(10);
      if x.None? then Short
      else
        var n := SkipNames(z, x.value, z[3]);
        if n.None? then Short else Body(n.value)
  }

  // ---- what reading finds is the format ----

  lemma FlagByteBits(h: Header)
    ensures var f := FlagByte(h);
            && !BadFlags(f) && (Flag(f, 4) <==> h.extra.Some?) && (Flag(f, 8) <==> h.name.Some?)
            && (Flag(f, 16) <==> h.comment.Some?) && (Flag(f, 1) <==> h.text)
  {
  }

  lemma FlagByteIs(h: Header, f: byte)
    requires !BadFlags(f) && (Flag(f, 4) <==> h.extra.Some?) && (Flag(f, 8) <==> h.name.Some?)
    requires (Flag(f, 16) <==> h.comment.Some?) && (Flag(f, 1) <==> h.text)
    ensures FlagByte(h) == f
  {
  }

  lemma {:induction false} SkipTextFinds(z: seq<byte>, i: nat, s: seq<byte>)
    requires ZeroFree(s) && i + |s| < |z| && z[i..i + |s|] == s && z[i + |s|] == 0
    ensures SkipText(z, i) == Some(i + |s| + 1)
    decreases |s|
  {
    if s != [] {
      assert z[i] == z[i..i + |s|][0] == s[0];
      SliceDrop(z, i, i + |s|, 1);
      SkipTextFinds(z, i + 1, s[1..]);
    }
  }

  lemma {:induction false} SkipTextIs(z: seq<byte>, i: nat)
    requires SkipText(z, i).Some?
    ensures var e := SkipText(z, i).value;
            i < e <= |z| && ZeroFree(z[i..e - 1]) && z[i..e] == TextBytes(Some(z[i..e - 1]))
    decreases |z| - i
  {
    if z[i] != 0 {
      SkipTextIs(z, i + 1);
      var e := SkipText(z, i).value;
      assert z[i..e - 1] == [z[i]] + z[i + 1..e - 1];
    }
  }

  lemma ExtraSkipped(z: seq<byte>, i: nat, x: seq<byte>)
    requires |x| < 65536 && i + 2 + |x| <= |z| && z[i..i + 2 + |x|] == ExtraBytes(Some(x))
    ensures SkipExtra(z, i) == Some(i + 2 + |x|)
  {
    var e := z[i..i + 2 + |x|];
    assert z[i] == e[0] && z[i + 1] == e[1];
  }

  lemma TextSkipped(z: seq<byte>, i: nat, s: seq<byte>)
    requires ZeroFree(s) && i + |s| < |z| && z[i..i + |s| + 1] == TextBytes(Some(s))
    ensures SkipText(z, i) == Some(i + |s| + 1)
  {
    var e := z[i..i + |s| + 1];
    assert e[|s|] == 0;
    assert z[i..i + |s|] == e[..|s|] == s;
    SkipTextFinds(z, i, s);
  }

  lemma Middle(a: seq<byte>, b: seq<byte>, c: seq<byte>)
    ensures (a + b + c)[|a|..|a| + |b|] == b
  {
  }

  lemma Sizes(h: Header)
    requires WellFormed(h)
    ensures |ExtraBytes(h.extra)| == if h.extra.Some? then 2 + |h.extra.value| else 0
    ensures |TextBytes(h.name)| == if h.name.Some? then |h.name.value| + 1 else 0
    ensures |TextBytes(h.comment)| == if h.comment.Some? then |h.comment.value| + 1 else 0
  {
  }

  // The header and what follows it, cut at each of its parts.
  lemma Parts(h: Header, body: seq<byte>)
    requires WellFormed(h)
    ensures var z, x, n, c := HeaderBytes(h) + body, ExtraBytes(h.extra), TextBytes(h.name), TextBytes(h.comment);
            && |HeaderBytes(h)| == 10 + |x| + |n| + |c|
            && z[0] == 0x1f && z[1] == h.magic && z[2] == 8 && z[3] == FlagByte(h)
            && z[10..10 + |x|] == x && z[10 + |x|..10 + |x| + |n|] == n
            && z[10 + |x| + |n|..10 + |x| + |n| + |c|] == c
  {
    hide FlagByte, ExtraBytes, TextBytes, ZeroFree;
    var fixed, x, n, c := [0x1f, h.magic, 8, FlagByte(h)] + h.rest, ExtraBytes(h.extra), TextBytes(h.name),
        TextBytes(h.comment);
    var z := HeaderBytes(h) + body;
    assert z == fixed + x + (n + c + body);
    Middle(fixed, x, n + c + body);
    assert z == (fixed + x) + n + (c + body);
    Middle(fixed + x, n, c + body);
    Middle(fixed + x + n, c, body);
  }

  // Every header of the format, whatever follows it, is skipped exactly.
  lemma HeaderSkipped(h: Header, body: seq<byte>)
    requires WellFormed(h)
    ensures SkipHeader(HeaderBytes(h) + body) == Body(|HeaderBytes(h)|)
  {
    hide Flag, BadFlags, FlagByte, ZeroFree, SkipText, SkipExtra, HeaderBytes, ExtraBytes, TextBytes;
    var z := HeaderBytes(h) + body;
    Parts(h, body);
    Sizes(h);
    FlagByteBits(h);
    var b := 10 + |ExtraBytes(h.extra)|;
    if h.extra.Some? { ExtraSkipped(z, 10, h.extra.value); }
    if h.name.Some? { TextSkipped(z, b, h.name.value); }
    if h.comment.Some? { TextSkipped(z, b + |TextBytes(h.name)|, h.comment.value); }
  }

  lemma SkipExtraIs(z: seq<byte>, i: nat)
    requires SkipExtra(z, i).Some?
    ensures var e := SkipExtra(z, i).value;
            i + 2 <= e <= |z| && e - i - 2 < 65536 && z[i..e] == ExtraBytes(Some(z[i + 2..e]))
  {
  }

  lemma Pieces(z: seq<byte>, a: nat, b: nat, c: nat, d: nat)
    requires 10 <= a <= b <= c <= |z| && d == 10
    ensures z[..c] == z[..4] + z[4..d] + z[d..a] + z[a..b] + z[b..c]
  {
  }

  // What is skipped is a header of the format, and no other.
  lemma SkippedIsHeader(z: seq<byte>) returns (h: Header)
    requires SkipHeader(z).Body?
    ensures WellFormed(h) && SkipHeader(z).at <= |z| && z[..SkipHeader(z).at] == HeaderBytes(h)
  {
    hide Flag, BadFlags, FlagByte, ZeroFree, SkipText, SkipExtra, ExtraBytes, TextBytes;
    var f := z[3];
    var x: Option<seq<byte>>, n: Option<seq<byte>>, t: Option<seq<byte>> := None, None, None;
    var b: nat := 10;
    Absent();
    if Flag(f, 4) {
      SkipExtraIs(z, 10);
      b := SkipExtra(z, 10).value;
      x := Some(z[12..b]);
    }
    var c := b;
    if Flag(f, 8) {
      SkipTextIs(z, b);
      c := SkipText(z, b).value;
      n := Some(z[b..c - 1]);
    }
    var d := c;
    if Flag(f, 16) {
      SkipTextIs(z, c);
      d := SkipText(z, c).value;
      t := Some(z[c..d - 1]);
    }
    h := Header(z[1], Flag(f, 1), z[4..10], x, n, t);
    FlagByteIs(h, f);
    Pieces(z, b, c, d, 10);
    assert SkipHeader(z) == Body(d);
    assert ExtraBytes(x) == z[10..b] && TextBytes(n) == z[b..c] && TextBytes(t) == z[c..d];
    FourBytes(z, f);
  }

  lemma Absent()
    ensures ExtraBytes(None) == [] && TextBytes(None) == []
  {
  }

  lemma FourBytes(z: seq<byte>, f: byte)
    requires |z| >= 4 && z[0] == 0x1f && z[2] == 8 && z[3] == f
    ensures z[..4] == [0x1f, z[1], 8, f]
  {
  }

  // ---- gz_decompress ----

  // get_byte: byte i of the input z at addr.
  method GetByte(mem: Ram, addr: int, i: nat, ghost z: seq<byte>) returns (x: byte)
    requires Sits(mem.bytes, addr, z) && i < |z|
    ensures x == z[i]
  {
    SitsAt(mem.bytes, addr, z, i);
    x := mem.bytes[addr + i];
  }

  // inflate.c:1145-1149
  method PassExtra(mem: Ram, addr: int, at: nat, ghost z: seq<byte>) returns (i: nat)
    requires Sits(mem.bytes, addr, z) && SkipExtra(z, at).Some?
    ensures i == SkipExtra(z, at).value
  {
    var lo: int := GetByte(mem, addr, at, z);
    var hi: int := GetByte(mem, addr, at + 1, z);
    var len: int := lo + 256 * hi;
    i := at + 2;
    while len > 0
      invariant 0 <= len && i + len == SkipExtra(z, at).value
    {
      len := len - 1;
      i := i + 1;
    }
  }

  // inflate.c:1154 and 1159
  method PassText(mem: Ram, addr: int, at: nat, ghost z: seq<byte>) returns (i: nat)
    requires Sits(mem.bytes, addr, z) && SkipText(z, at).Some?
    ensures i == SkipText(z, at).value
  {
    i := at;
    var c := GetByte(mem, addr, i, z);
    while c != 0
      invariant i < |z| && c == z[i] && SkipText(z, i) == SkipText(z, at)
      decreases |z| - i
    {
      i := i + 1;
      c := GetByte(mem, addr, i, z);
    }
    i := i + 1;
  }

  // inflate.c:1118-1160: false is the return of 1; otherwise i is where the data start.
  method PassHeader(mem: Ram, addr: int, ghost z: seq<byte>) returns (ok: bool, i: nat)
    requires Sits(mem.bytes, addr, z) && SkipHeader(z) != Short
    ensures SkipHeader(z) == if ok then Body(i) else Refused
  {
    hide Flag, Sits;
    var magic0 := GetByte(mem, addr, 0, z);
    var magic1 := GetByte(mem, addr, 1, z);
    var kind := GetByte(mem, addr, 2, z);
    if magic0 != 0x1f || (magic1 != 0x8b && magic1 != 0x9e) { return false, 3; }
    if kind != 8 { return false, 3; }
    var flags := GetByte(mem, addr, 3, z);
    if Flag(flags, 32) || Flag(flags, 2) || Flag(flags, 64) || Flag(flags, 128) { return false, 4; }
    i := 10;
    if Flag(flags, 4) { i := PassExtra(mem, addr, i, z); }
    if Flag(flags, 8) { i := PassText(mem, addr, i, z); }
    if Flag(flags, 16) { i := PassText(mem, addr, i, z); }
    ok := true;
  }

  // The data behind the header, up to bit lim of z.
  ghost function Payload(z: seq<byte>, at: nat, lim: nat): (r: Outcome)
    requires lim <= 8 * |z|
    ensures r.BadTables? || r.BadData? ==> 1 <= r.code <= 2
  {
    Inflated(Stream(z)[..lim], 8 * at, [])
  }

  // z is a gzip member the decompressor is made for: its data end at bit lim, whatever follows
  // is at least three bytes long, and the output to base does not reach unread input at addr.
  ghost predicate Decompressible(z: seq<byte>, addr: int, base: int, lim: nat)
  {
    && lim + 24 <= 8 * |z| && SkipHeader(z) != Short
    && (SkipHeader(z).Body? ==>
          var R := Payload(z, SkipHeader(z).at, lim);
          && 8 * SkipHeader(z).at <= lim && R != OffSpec
          && InflatedKept(Places(addr, |z|, base), Stream(z)[..lim], 8 * SkipHeader(z).at, []))
  }

  // Output that stays clear of the input altogether is no trouble.
  lemma ClearDecompressible(z: seq<byte>, addr: int, base: int, lim: nat)
    requires lim + 24 <= 8 * |z| && SkipHeader(z).Body? && 8 * SkipHeader(z).at <= lim
    requires var R := Payload(z, SkipHeader(z).at, lim); R != OffSpec && Apart(base, |R.out|, addr, |z|)
    ensures Decompressible(z, addr, base, lim)
  {
    hide SkipHeader, Inflated, InflatedKept, Apart;
    ApartInflated(Places(addr, |z|, base), Stream(z)[..lim], 8 * SkipHeader(z).at, []);
  }

  // Result 1 for a refused header, leaving memory alone; otherwise the result of
  // inflation, whose output is in memory from pMem on when it is 0.
  method GzDecompress(mem: Ram, pGZ: int, pMem: int, window: array<byte>, store: Store, ghost z: seq<byte>,
                      ghost lim: nat)
    returns (r: nat, inptr: nat)
    requires window.Length == WSIZE && store.Valid() && Sits(mem.bytes, pGZ, z) && Decompressible(z, pGZ, pMem, lim)
    modifies mem, window, store, store.heap
    ensures store.Valid() && store.heap.refusals == old(store.heap.refusals) + if r == 3 then 1 else 0
    ensures SkipHeader(z) == Refused ==>
              r == 1 && mem.bytes == old(mem.bytes) && store.tables == old(store.tables)
                && store.heap.live == old(store.heap.live)
    ensures SkipHeader(z).Body? ==>
              var R := Payload(z, SkipHeader(z).at, lim);
              || r == 3
              || (R.Done? && r == 0 && mem.bytes == Written(old(mem.bytes), pMem, R.out) && inptr == (R.pos + 7) / 8
                  && store.heap.layout == old(store.heap.layout))
              || (R.BadTables? && r == R.code && store.tables == old(store.tables)
                 && store.heap.layout == old(store.heap.layout))
              || (R.BadData? && r == R.code
                  && (Leaks(Stream(z)[..lim], 8 * SkipHeader(z).at, []) <==>
                        !(store.tables == old(store.tables) && store.heap.live == old(store.heap.live))))
  {
    hide SkipHeader, Inflated, InflatedKept, Leaks, Stream, Written, Reader.Valid, Sits;
    var ok, at := PassHeader(mem, pGZ, z);
    if !ok { return 1, at; }
    var reader := new Reader(mem, pGZ, z, at);
    var o := new Output(pMem, mem, window);
    var inf := new Inflater(reader, o, store, lim);
    r := inf.Run();
    return r, reader.inptr;
  }
}
