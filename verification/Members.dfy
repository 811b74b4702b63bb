// Gzip members as the encoder makes them, and gz_decompress on them.
module Members {
  import opened Bits
  import opened HuftStore
  import opened Deflate
  import opened BlockEncoding
  import opened Window
  import opened RamMemory
  import opened Gzip
  import E = Encoding

  // The compressed data, behind n bytes.
  ghost function Data(cs: seq<Chunk>, n: nat): seq<bool>
    requires cs != [] && ChunksFit(cs, [])
  {
    ChunksBits(cs, 8 * n, [])
  }

  // A header, the data filled up to whole bytes, and what follows: the checksum and the size.
  ghost function Member(h: Header, cs: seq<Chunk>, tail: seq<byte>): seq<byte>
    requires WellFormed(h) && cs != [] && ChunksFit(cs, [])
  {
    var d := Data(cs, |HeaderBytes(h)|);
    HeaderBytes(h) + Pack(d + Padding(|d|)) + tail
  }

  ghost function DataEnd(h: Header, cs: seq<Chunk>): nat
    requires WellFormed(h) && cs != [] && ChunksFit(cs, [])
  {
    8 * |HeaderBytes(h)| + |Data(cs, |HeaderBytes(h)|)|
  }

  // The reference decoder gets from a member what its blocks mean.
  lemma MemberRead(h: Header, cs: seq<Chunk>, tail: seq<byte>)
    requires WellFormed(h) && cs != [] && ChunksFit(cs, []) && |tail| >= 3
    ensures var z, lim, at := Member(h, cs, tail), DataEnd(h, cs), |HeaderBytes(h)|;
            && SkipHeader(z) == Body(at) && lim + 24 <= 8 * |z| && 8 * at <= lim
            && Payload(z, at, lim) == Done(lim, Meaning(cs, []))
  {
    hide HeaderBytes, Pack, Stream, ChunksBits, ChunksFit, Meaning, Padding, SkipHeader, Inflated;
    var x, d := HeaderBytes(h), Data(cs, |HeaderBytes(h)|);
    var p := d + Padding(|d|);
    var z, lim := Member(h, cs, tail), DataEnd(h, cs);
    StreamPack(p);
    MiddleBits(x, Pack(p), tail);
    assert z == x + (Pack(p) + tail);
    HeaderSkipped(h, Pack(p) + tail);
    DataAt(z, 8 * |x|, p, d);
    StreamRead(cs, Stream(z)[..lim], 8 * |x|, []);
  }

  lemma DataAt(z: seq<byte>, a: nat, p: seq<bool>, d: seq<bool>)
    requires a + |p| <= 8 * |z| && Stream(z)[..a + |p|][a..] == p && |d| <= |p| && d == p[..|d|]
    ensures E.At(Stream(z)[..a + |d|], a, d)
  {
    hide Stream;
    var s := Stream(z);
    assert s[a..a + |p|] == p;
    SliceTake(s, a, a + |p|, |d|);
    assert s[..a + |d|][a..a + |d|] == s[a..a + |d|];
  }

  // gz_decompress on a member that its output stays clear of: unless malloc refuses a table, memory
  // holds what the blocks mean, and the heap is as before.
  method Unpack(mem: Ram, pGZ: int, pMem: int, window: array<byte>, store: Store,
                ghost h: Header, ghost cs: seq<Chunk>, ghost tail: seq<byte>)
    returns (r: nat, inptr: nat)
    requires WellFormed(h) && cs != [] && ChunksFit(cs, []) && |tail| >= 3
    requires window.Length == WSIZE && store.Valid() && Sits(mem.bytes, pGZ, Member(h, cs, tail))
    requires Apart(pMem, |Meaning(cs, [])|, pGZ, |Member(h, cs, tail)|)
    modifies mem, window, store, store.heap
    ensures store.Valid() && (r == 0 || r == 3)
    ensures r == 3 <==> store.heap.refusals != old(store.heap.refusals)
    ensures r == 0 ==>
              && mem.bytes == Written(old(mem.bytes), pMem, Meaning(cs, []))
              && inptr == (DataEnd(h, cs) + 7) / 8 && store.heap.layout == old(store.heap.layout)
  {
    hide Member, DataEnd, Meaning, ChunksFit, SkipHeader, Payload, Sits, Written, Store.Valid, Decompressible, Apart;
    MemberRead(h, cs, tail);
    ClearDecompressible(Member(h, cs, tail), pGZ, pMem, DataEnd(h, cs));
    r, inptr := GzDecompress(mem, pGZ, pMem, window, store, Member(h, cs, tail), DataEnd(h, cs));
  }
}
