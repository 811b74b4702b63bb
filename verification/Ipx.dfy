// apps/ipxbeui/ipx.c: gathering a packet from the sender's fragments and scattering it
// over the listener's.
module Ipx {
  import opened Bits
  import opened Buffer

  const MIN_PACKET: nat := 30
  const MAX_PACKET: nat := 1470
  const PKT_BUFFER: nat := 1514
  const MALFORM_PACKET: byte := 0xFD
  const OKAY: byte := 0x00
  const FREEZE: byte := 0x00
  const RECEIVING: byte := 0xFE
  const SENDING: byte := 0xFF

  // A fragment descriptor; present means that its address is not NULL.  buf is the memory of
  // size bytes at that address.
  datatype Fragment = Fragment(present: bool, size: nat, recvSize: nat, buf: seq<byte>)

  ghost predicate Sized(f: Fragment) { f.size < 65536 && |f.buf| == f.size }
  ghost predicate AllSized(fs: seq<Fragment>) { forall i :: 0 <= i < |fs| ==> Sized(fs[i]) }

  // An event control block, with the fragments its fragmentCount says are in use.
  class Ecb {
    var inUse: byte
    var completion: byte
    var socket: nat              // read high byte first, as it lies in memory and on the wire
    var netbeui: bool            // IPXFrameType == IPXBEUI
    var frags: seq<Fragment>

    ghost predicate Valid()
      reads this
    {
      |frags| <= 2 && AllSized(frags) && socket < 65536
    }
  }

  // ---- gathering ----

  function Concat(fs: seq<Fragment>): seq<byte> { if fs == [] then [] else Concat(fs[..|fs| - 1]) + fs[|fs| - 1].buf }

  function Sum(fs: seq<Fragment>): nat { if fs == [] then 0 else Sum(fs[..|fs| - 1]) + fs[|fs| - 1].size }

  lemma {:induction false} ConcatSize(fs: seq<Fragment>)
    requires AllSized(fs)
    ensures |Concat(fs)| == Sum(fs)
  {
    if fs != [] { ConcatSize(fs[..|fs| - 1]); }
  }

  // The sender's addresses.
  datatype Station = Station(network: seq<byte>, node: seq<byte>)

  predicate Proper(st: Station) { |st.network| == 4 && |st.node| == 6 }

  // The packet with checksum, length, transport control and source address filled in.
  function Rewritten(p: seq<byte>, st: Station, socket: nat): (r: seq<byte>)
    requires MIN_PACKET <= |p| < 65536 && Proper(st) && socket < 65536
    ensures |r| == |p| && r[5..18] == p[5..18] && r[30..] == p[30..]
    ensures r[..5] == [0xFF, 0xFF, |p| / 256, |p| % 256, 0]
    ensures r[18..30] == st.network + st.node + [socket / 256, socket % 256]
  {
    [0xFF, 0xFF, |p| / 256, |p| % 256, 0] + p[5..18] + st.network + st.node + [socket / 256, socket % 256] + p[30..]
  }

  // What goes out for these fragments.
  function Packet(fs: seq<Fragment>, netbeui: bool, st: Station, socket: nat): seq<byte>
    requires Proper(st) && socket < 65536
  {
    var p := Concat(fs);
    if netbeui || !(MIN_PACKET <= |p| < 65536) then p else Rewritten(p, st, socket)
  }

  // Packets IPX allows.
  predicate Sendable(fs: seq<Fragment>) { fs != [] && fs[0].size >= MIN_PACKET && Sum(fs) <= MAX_PACKET }

  // The checks IPXSendPacket makes: the size is summed in 16 bits.
  predicate Passes(fs: seq<Fragment>) { fs != [] && fs[0].size >= MIN_PACKET && Sum(fs) % 65536 <= MAX_PACKET }

  // A packet that passes although it does not fit the buffer.
  predicate Overruns(fs: seq<Fragment>) { Passes(fs) && Sum(fs) >= 65536 }

  class Sender {
    const pkt: array<byte>       // PKTBuf
    const st: Station

    ghost predicate Valid() { pkt.Length == PKT_BUFFER && Proper(st) }

    constructor (pkt: array<byte>, st: Station)
      requires pkt.Length == PKT_BUFFER && Proper(st)
      ensures Valid() && this.pkt == pkt && this.st == st
    {
      this.pkt, this.st := pkt, st;
    }

    // ipx.c:256-264: the fragments one behind the other, from offset h on.
    method Gather(fs: seq<Fragment>, h: nat)
      requires Valid() && AllSized(fs) && h + Sum(fs) <= PKT_BUFFER
      modifies pkt
      ensures |Concat(fs)| == Sum(fs) && pkt[..] == Patch(old(pkt[..]), h, Concat(fs))
    {
      hide Patch, Concat, Sum;
      var at, i := h, 0;
      ghost var s := pkt[..];
      ConcatSize(fs);
      GatherStart(fs, s, h);
      while i < |fs|
        invariant 0 <= i <= |fs| && at == h + Sum(fs[..i]) <= PKT_BUFFER && |Concat(fs[..i])| == Sum(fs[..i])
        invariant pkt[..] == Patch(s, h, Concat(fs[..i]))
      {
        GatherStep(fs, i);
        SumGrows(fs, i + 1);
        PatchOn(s, h, Concat(fs[..i]), fs[i].buf);
        Memcpy(pkt, at, fs[i].buf);
        at := at + fs[i].size;
        i := i + 1;
      }
      assert fs[..i] == fs;
    }

    // ipx.c:266-280: the header fields the sender fills in, h being where the packet p starts.
    method FillHeader(h: nat, n: nat, socket: nat)
      requires Valid() && MIN_PACKET <= n < 65536 && h + n <= PKT_BUFFER && socket < 65536
      modifies pkt
      ensures pkt[..] == Patch(old(pkt[..]), h, Rewritten(old(pkt[h..h + n]), st, socket))
    {
      hide Patch, Rewritten;
      HeaderPatched(pkt[..], h, n, st, socket);
      assert pkt[..][h..h + n] == pkt[h..h + n];
      Memcpy(pkt, h, [0xFF, 0xFF, n / 256, n % 256, 0]);
      Memcpy(pkt, h + 18, st.network);
      Memcpy(pkt, h + 22, st.node);
      Memcpy(pkt, h + 28, [socket / 256, socket % 256]);
    }

    // The sum of the sizes, in 16 bits.
    method PacketSize(fs: seq<Fragment>) returns (n: nat)
      ensures n == Sum(fs) % 65536
    {
      n := 0;
      var i := 0;
      while i < |fs|
        invariant 0 <= i <= |fs| && n == Sum(fs[..i]) % 65536
      {
        assert fs[..i + 1][..i] == fs[..i];
        n := (n + fs[i].size) % 65536;
        i := i + 1;
      }
      assert fs[..i] == fs;
    }

    // IPXSendPacket, h being the size of the frame header: n is the length of the packet
    // behind it, 0 when nothing is sent.
    method SendPacket(ecb: Ecb, h: nat) returns (n: nat)
      requires Valid() && ecb.Valid() && h <= 22
      requires ecb.inUse != SENDING ==> !Overruns(ecb.frags)
      modifies ecb, pkt
      ensures ecb.Valid() && ecb.frags == old(ecb.frags)
      ensures old(ecb.inUse) == SENDING ==> n == 0 && ecb.completion == old(ecb.completion)
      ensures old(ecb.inUse) != SENDING && !Passes(ecb.frags) ==>
              n == 0 && ecb.inUse == FREEZE && ecb.completion == MALFORM_PACKET
      ensures old(ecb.inUse) != SENDING && Passes(ecb.frags) ==>
                && n == Sum(ecb.frags) <= MAX_PACKET && h + n <= PKT_BUFFER && ecb.inUse == OKAY
                && pkt[h..h + n] == Packet(ecb.frags, old(ecb.netbeui), st, old(ecb.socket))
    {
      hide Patch, Concat, Sum;
      var fs := ecb.frags;
      n := 0;
      if ecb.inUse == SENDING { return; }
      if |fs| == 0 || fs[0].size < MIN_PACKET {
        ecb.inUse, ecb.completion := FREEZE, MALFORM_PACKET;
        return;
      }
      var packetSize := PacketSize(fs);
      if packetSize > MAX_PACKET {
        ecb.inUse, ecb.completion := FREEZE, MALFORM_PACKET;
        return;
      }
      FirstCounts(fs);
      ghost var s := pkt[..];
      Gather(fs, h);
      PatchRead(s, h, Concat(fs));
      assert pkt[h..h + packetSize] == pkt[..][h..h + packetSize];
      if !ecb.netbeui {
        ghost var t := pkt[..];
        FillHeader(h, packetSize, ecb.socket);
        PatchRead(t, h, Rewritten(Concat(fs), st, ecb.socket));
        assert pkt[h..h + packetSize] == pkt[..][h..h + packetSize];
      }
      ecb.inUse := OKAY;
      n := packetSize;
    }
  }

  lemma GatherStart(fs: seq<Fragment>, s: seq<byte>, h: nat)
    requires h <= |s|
    ensures Sum(fs[..0]) == 0 && Concat(fs[..0]) == [] && Patch(s, h, Concat(fs[..0])) == s
  {
  }

  lemma GatherStep(fs: seq<Fragment>, i: nat)
    requires i < |fs|
    ensures Concat(fs[..i + 1]) == Concat(fs[..i]) + fs[i].buf && Sum(fs[..i + 1]) == Sum(fs[..i]) + fs[i].size
  {
    assert fs[..i + 1][..i] == fs[..i];
  }

  lemma PatchOn(s: seq<byte>, h: nat, d: seq<byte>, e: seq<byte>)
    requires h + |d| + |e| <= |s|
    ensures Patch(Patch(s, h, d), h + |d|, e) == Patch(s, h, d + e)
  {
  }

  lemma PatchRead(s: seq<byte>, h: nat, d: seq<byte>)
    requires h + |d| <= |s|
    ensures Patch(s, h, d)[h..h + |d|] == d
  {
  }

  // Four pieces of a buffer written over one by one, with a piece left alone between the first two.
  lemma FourPatches(a: seq<byte>, q0: seq<byte>, q1: seq<byte>, q2: seq<byte>, q3: seq<byte>, q4: seq<byte>,
                    z: seq<byte>,
                    f: seq<byte>, m: seq<byte>, e: seq<byte>, k: seq<byte>)
    requires |q0| == |f| && |q2| == |m| && |q3| == |e| && |q4| == |k|
    ensures var s := a + q0 + q1 + q2 + q3 + q4 + z;
            var i := |a| + |f| + |q1|;
            Patch(Patch(Patch(Patch(s, |a|, f), i, m), i + |m|, e), i + |m| + |e|, k) == a + f + q1 + m + e + k + z
  {
    hide Patch;
    assert a + q0 + q1 + q2 + q3 + q4 + z == a + q0 + (q1 + q2 + q3 + q4 + z);
    PatchMiddle(a, q0, q1 + q2 + q3 + q4 + z, f);
    var b := a + f + q1;
    assert a + f + (q1 + q2 + q3 + q4 + z) == b + q2 + (q3 + q4 + z);
    PatchMiddle(b, q2, q3 + q4 + z, m);
    assert b + m + (q3 + q4 + z) == b + m + q3 + (q4 + z);
    PatchMiddle(b + m, q3, q4 + z, e);
    assert b + m + e + (q4 + z) == b + m + e + q4 + z;
    PatchMiddle(b + m + e, q4, z, k);
  }

  lemma Cut(p: seq<byte>)
    requires |p| >= 30
    ensures p == p[..5] + p[5..18] + p[18..22] + p[22..28] + p[28..30] + p[30..]
  {
  }

  // Writing the fields one by one into a packet in a buffer.
  lemma HeaderPatched(s: seq<byte>, h: nat, n: nat, st: Station, socket: nat)
    requires MIN_PACKET <= n < 65536 && h + n <= |s| && Proper(st) && socket < 65536
    ensures Patch(Patch(Patch(Patch(s, h, [0xFF, 0xFF, n / 256, n % 256, 0]), h + 18, st.network), h + 22, st.node),
            h + 28, [socket / 256, socket % 256])
            == Patch(s, h, Rewritten(s[h..h + n], st, socket))
  {
    hide Patch, Rewritten;
    var p: seq<byte>, a: seq<byte>, z: seq<byte> := s[h..h + n], s[..h], s[h + n..];
    var f: seq<byte>, k: seq<byte> := [0xFF, 0xFF, n / 256, n % 256, 0], [socket / 256, socket % 256];
    assert s == a + p + z;
    Cut(p);
    Regroup(a, p[..5], p[5..18], p[18..22], p[22..28], p[28..30], p[30..], z);
    FourPatches(a, p[..5], p[5..18], p[18..22], p[22..28], p[28..30], p[30..] + z, f, st.network, st.node, k);
    PatchMiddle(a, p, z, Rewritten(p, st, socket));
    RewrittenIs(p, st, socket);
    Regroup(a, f, p[5..18], st.network, st.node, k, p[30..], z);
  }

  lemma Regroup(a: seq<byte>, b: seq<byte>, c: seq<byte>, d: seq<byte>, e: seq<byte>, f: seq<byte>, g: seq<byte>,
                z: seq<byte>)
    ensures a + (b + c + d + e + f + g) + z == a + b + c + d + e + f + (g + z)
  {
  }

  lemma RewrittenIs(p: seq<byte>, st: Station, socket: nat)
    requires MIN_PACKET <= |p| < 65536 && Proper(st) && socket < 65536
    ensures Rewritten(p, st, socket) ==
            [0xFF, 0xFF, |p| / 256, |p| % 256, 0] + p[5..18] + st.network + st.node + [socket / 256,
              socket % 256] + p[30..]
  {
  }

  lemma {:induction false} SumGrows(fs: seq<Fragment>, k: nat)
    requires k <= |fs|
    ensures Sum(fs[..k]) <= Sum(fs)
    decreases |fs|
  {
    if k < |fs| {
      SumGrows(fs[..|fs| - 1], k);
      assert fs[..|fs| - 1][..k] == fs[..k];
    } else {
      assert fs[..k] == fs;
    }
  }

  lemma FirstCounts(fs: seq<Fragment>)
    requires fs != []
    ensures Sum(fs) >= fs[0].size
  {
    SumGrows(fs, 1);
    assert fs[..1] == [fs[0]] && [fs[0]][..0] == [];
    assert Sum([fs[0]]) == Sum([]) + fs[0].size;
  }

  // ---- scattering ----

  predicate Usable(f: Fragment) { f.size != 0 && f.present }

  function Least(a: int, b: int): int { if a <= b then a else b }

  // A fragment that receives d, which fits.
  function Received(f: Fragment, d: seq<byte>): Fragment
    requires |d| <= |f.buf|
  {
    Fragment(f.present, f.size, |d|, d + f.buf[|d|..])
  }

  // The data poured into the usable fragments in order, as long as they last.
  function Pour(fs: seq<Fragment>, d: seq<byte>): (r: seq<Fragment>)
    requires AllSized(fs)
    ensures |r| == |fs|
  {
    if fs == [] || d == [] then fs
    else if Usable(fs[0]) then
      var k := Least(|d|, fs[0].size);
      [Received(fs[0], d[..k])] + Pour(fs[1..], d[k..])
    else [fs[0]] + Pour(fs[1..], d)
  }

  // Room in the usable fragments before the i-th.
  function Before(fs: seq<Fragment>, i: nat): nat
    requires i <= |fs|
  {
    if i == 0 then 0 else (if Usable(fs[0]) then fs[0].size else 0) + Before(fs[1..], i - 1)
  }

  // f has become r: it holds the bytes of d from o on, as far as both last, and their number; if d
  // does not reach it, or it is not usable, it is as before.
  predicate Arrived(f: Fragment, r: Fragment, d: seq<byte>, o: nat)
  {
    if f.present && f.size > 0 && o < |d| then
      var k := if |d| - o <= f.size then |d| - o else f.size;
      && k <= |f.buf| == |r.buf| && r.present == f.present && r.size == f.size
      && r.recvSize == k && r.buf[..k] == d[o..o + k] && r.buf[k..] == f.buf[k..]
    else r == f
  }

  // Every fragment gets the bytes of its own place in the packet, and knows how many; what the
  // packet does not reach is untouched.
  lemma PourAt(fs: seq<Fragment>, d: seq<byte>, i: nat)
    requires AllSized(fs) && i < |fs|
    ensures Arrived(fs[i], Pour(fs, d)[i], d, Before(fs, i))
  {
    hide Pour, Before;
    PourPlace(fs, d, i);
    SizedAt(fs, i);
  }

  lemma SizedAt(fs: seq<Fragment>, i: nat)
    requires AllSized(fs) && i < |fs|
    ensures |fs[i].buf| == fs[i].size
  {
  }

  lemma {:induction false} PourPlace(fs: seq<Fragment>, d: seq<byte>, i: nat)
    requires AllSized(fs) && i < |fs|
    ensures var f, r, o := fs[i], Pour(fs, d)[i], Before(fs, i);
            if Usable(f) && o < |d| then r == Received(f, d[o..o + Least(|d| - o, f.size)]) else r == f
    decreases i
  {
    hide Received;
    if d != [] {
      var k := if Usable(fs[0]) then Least(|d|, fs[0].size) else 0;
      if i > 0 {
        PourPlace(fs[1..], d[k..], i - 1);
        var o := Before(fs[1..], i - 1);
        if Usable(fs[i]) && Before(fs, i) < |d| {
          var m := Least(|d| - Before(fs, i), fs[i].size);
          SliceDropAt(d, k, o, m);
        }
        assert d[0..] == d;
      }
    }
  }

  // The numbers the reached ones among the first i fragments got.
  function Tally(fs: seq<Fragment>, d: seq<byte>, i: nat): nat
    requires AllSized(fs) && i <= |fs|
  {
    if i == 0 then 0
    else
      var n := if Usable(fs[i - 1]) && Before(fs, i - 1) < |d| then Pour(fs, d)[i - 1].recvSize else 0;
      Tally(fs, d, i - 1) + n
  }

  lemma {:induction false} BeforeStep(fs: seq<Fragment>, i: nat)
    requires i < |fs|
    ensures Before(fs, i + 1) == Before(fs, i) + if Usable(fs[i]) then fs[i].size else 0
    decreases i
  {
    if i > 0 { BeforeStep(fs[1..], i - 1); }
  }

  // The numbers add up to the size of the packet, or to the room there is.
  lemma {:induction false} TallyIs(fs: seq<Fragment>, d: seq<byte>, i: nat)
    requires AllSized(fs) && i <= |fs|
    ensures Tally(fs, d, i) == Least(|d|, Before(fs, i))
  {
    hide Pour, Before;
    if i > 0 {
      TallyIs(fs, d, i - 1);
      BeforeStep(fs, i - 1);
      PourAt(fs, d, i - 1);
    } else {
      NothingBefore(fs);
    }
  }

  lemma NothingBefore(fs: seq<Fragment>)
    ensures Before(fs, 0) == 0
  {
  }

  lemma SliceDropAt(d: seq<byte>, k: nat, o: nat, m: nat)
    requires k + o + m <= |d|
    ensures d[k..][o..o + m] == d[k + o..k + o + m]
  {
  }

  // The memory of the usable fragments, one behind the other.
  function Room(fs: seq<Fragment>): seq<byte>
  {
    if fs == [] then [] else (if Usable(fs[0]) then fs[0].buf else []) + Room(fs[1..])
  }

  // Seen as one region, that memory holds the packet as far as both last, and what was there
  // before behind it.
  lemma {:induction false} PourFills(fs: seq<Fragment>, d: seq<byte>)
    requires AllSized(fs)
    ensures var m := Least(|d|, |Room(fs)|);
            Room(Pour(fs, d)) == d[..m] + Room(fs)[m..]
  {
    if fs == [] || d == [] {
    } else {
      var k := if Usable(fs[0]) then Least(|d|, fs[0].size) else 0;
      PourFills(fs[1..], d[k..]);
      RoomSplit(fs, d, k);
    }
  }

  lemma RegionSplit(b: seq<byte>, rest: seq<byte>, d: seq<byte>)
    ensures var k, m := Least(|d|, |b|), Least(|d|, |b| + |rest|);
            var m1 := Least(|d| - k, |rest|);
            (d[..k] + b[k..]) + (d[k..][..m1] + rest[m1..]) == d[..m] + (b + rest)[m..]
  {
    if |d| < |b| {
      RegionInside(b, rest, |d|);
      assert rest[0..] == rest && d[|d|..][..0] == [] && d[..|d|] == d;
    } else {
      RegionBeyond(b, rest, d, Least(|d| - |b|, |rest|));
    }
  }

  lemma RegionInside(b: seq<byte>, rest: seq<byte>, n: nat)
    requires n <= |b|
    ensures (b + rest)[n..] == b[n..] + rest
  {
  }

  lemma RegionBeyond(b: seq<byte>, rest: seq<byte>, d: seq<byte>, m: nat)
    requires |b| + m <= |d| && m <= |rest|
    ensures (d[..|b|] + b[|b|..]) + (d[|b|..][..m] + rest[m..]) == d[..|b| + m] + (b + rest)[|b| + m..]
  {
    assert d[..|b| + m] == d[..|b|] + d[|b|..][..m] && b[|b|..] == [];
    assert (b + rest)[|b| + m..] == rest[m..];
  }

  lemma RoomSplit(fs: seq<Fragment>, d: seq<byte>, k: nat)
    requires AllSized(fs) && fs != [] && d != [] && k == if Usable(fs[0]) then Least(|d|, fs[0].size) else 0
    requires var m := Least(|d| - k, |Room(fs[1..])|);
             Room(Pour(fs[1..], d[k..])) == d[k..][..m] + Room(fs[1..])[m..]
    ensures var m := Least(|d|, |Room(fs)|);
            Room(Pour(fs, d)) == d[..m] + Room(fs)[m..]
  {
    hide Pour, Room, AllSized;
    PourFirst(fs, d, k);
    RoomStep(fs);
    RoomStep(Pour(fs, d));
    if Usable(fs[0]) { RegionSplit(fs[0].buf, Room(fs[1..]), d); } else { assert d[0..] == d; }
  }

  // The first fragment after pouring, and the others.
  lemma PourFirst(fs: seq<Fragment>, d: seq<byte>, k: nat)
    requires AllSized(fs) && fs != [] && d != [] && k == if Usable(fs[0]) then Least(|d|, fs[0].size) else 0
    ensures AllSized(fs[1..]) && k <= |d| && |fs[0].buf| == fs[0].size
    ensures var r := Pour(fs, d);
            && r != [] && Usable(r[0]) == Usable(fs[0]) && r[1..] == Pour(fs[1..], d[k..])
            && (Usable(fs[0]) ==> r[0].buf == d[..k] + fs[0].buf[k..])
  {
    hide Pour;
    assert d[0..] == d;
    assert fs[0..] == fs;
    PourStep(fs, 0, d);
  }

  lemma RoomStep(fs: seq<Fragment>)
    requires fs != []
    ensures Room(fs) == (if Usable(fs[0]) then fs[0].buf else []) + Room(fs[1..])
  {
  }

  // IPXInput for the listening block found for the socket, with DataLen bytes of packet at p.
  method Input(ecb: Ecb, p: seq<byte>, dataLen: int)
    requires ecb.Valid() && dataLen <= |p|
    modifies ecb
    ensures old(ecb.inUse) == RECEIVING ==>
              ecb.inUse == OKAY && ecb.completion == OKAY && ecb.frags ==
                Pour(old(ecb.frags), p[..if dataLen > 0 then dataLen else 0])
    ensures old(ecb.inUse) == RECEIVING ==>
              var fs, d := old(ecb.frags), p[..if dataLen > 0 then dataLen else 0];
              && |ecb.frags| == |fs|
              && forall i :: 0 <= i < |fs| ==> Arrived(fs[i], ecb.frags[i], d, Before(fs, i))
    ensures old(ecb.inUse) != RECEIVING ==> ecb.frags == old(ecb.frags) && ecb.inUse == old(ecb.inUse)
  {
    hide Pour, AllSized, Arrived;
    if ecb.inUse != RECEIVING { return; }
    var fs := Scatter(ecb.frags, p, dataLen);
    ghost var d := p[..if dataLen > 0 then dataLen else 0];
    forall i | 0 <= i < |ecb.frags| ensures Arrived(ecb.frags[i], fs[i], d, Before(ecb.frags, i)) {
      PourAt(ecb.frags, d, i);
    }
    ecb.frags, ecb.inUse, ecb.completion := fs, OKAY, OKAY;
  }

  // The loop of IPXInput over the fragments (ipx.c:389-401); at is the source pointer.
  method Scatter(fs: seq<Fragment>, p: seq<byte>, dataLen: int) returns (out: seq<Fragment>)
    requires AllSized(fs) && dataLen <= |p|
    ensures out == Pour(fs, p[..if dataLen > 0 then dataLen else 0])
  {
    hide Received, Pour, AllSized, Least;
    ghost var d := p[..if dataLen > 0 then dataLen else 0];
    out := [];
    var left, at, j := dataLen, 0, 0;
    assert fs[0..] == fs && d[0..] == d;
    while j < |fs| && left > 0
      invariant 0 <= j <= |fs| && |out| == j && 0 <= at && left <= |p| && AllSized(fs[j..])
      invariant left > 0 ==> at + left == |d|
      invariant Pour(fs, d) == out + Pour(fs[j..], Rest(d, at, left))
      decreases |fs| - j
    {
      var f := fs[j];
      ScatterTurn(fs, p, d, j, at, left);
      if f.size != 0 && f.present {
        var copyLen := Least(left, f.size);
        LeastIs(left, f.size);
        out := out + [Received(f, p[at..at + copyLen])];
        at := at + f.size;
        left := left - copyLen;
      } else {
        out := out + [f];
      }
      j := j + 1;
    }
    PourNothing(fs[j..]);
    out := out + fs[j..];
  }

  // What is left of the data at a time.
  function Rest(d: seq<byte>, at: nat, left: int): seq<byte>
  {
    if left > 0 && at <= |d| then d[at..] else []
  }

  lemma ScatterTurn(fs: seq<Fragment>, p: seq<byte>, d: seq<byte>, j: nat, at: nat, left: int)
    requires j < |fs| && AllSized(fs[j..]) && |d| <= |p| && d == p[..|d|] && left > 0 && at + left == |d|
    ensures AllSized(fs[j + 1..]) && |fs[j].buf| == fs[j].size
    ensures var f, k := fs[j], Least(left, fs[j].size);
            if Usable(f) then
              && 0 <= k <= f.size && at + k <= |p|
              && Pour(fs[j..], Rest(d, at, left))
                 == [Received(f, p[at..at + k])] + Pour(fs[j + 1..], Rest(d, at + f.size, left - k))
            else Pour(fs[j..], Rest(d, at, left)) == [f] + Pour(fs[j + 1..], Rest(d, at, left))
  {
    hide Received, Pour, AllSized;
    var f, k := fs[j], Least(left, fs[j].size);
    TailSized(fs, j);
    PourStep(fs[j..], 0, d[at..]);
    assert fs[j..][0..] == fs[j..] && fs[j..][1..] == fs[j + 1..];
    CopyOf(p, d, at, k);
    assert d[at + k..] == Rest(d, at + f.size, left - k);
  }

  lemma TailSized(fs: seq<Fragment>, j: nat)
    requires j < |fs| && AllSized(fs[j..])
    ensures AllSized(fs[j + 1..]) && |fs[j].buf| == fs[j].size
  {
    assert fs[j..][0] == fs[j];
    var g := fs[j + 1..];
    forall i | 0 <= i < |g| ensures Sized(g[i]) { assert g[i] == fs[j..][i + 1]; }
  }

  lemma LeastIs(a: int, b: int)
    ensures Least(a, b) <= a && Least(a, b) <= b && (Least(a, b) == a || Least(a, b) == b)
  {
  }

  // The bytes copied, and the bytes left when the pointer has moved on by as many.
  lemma CopyOf(p: seq<byte>, d: seq<byte>, at: nat, n: nat)
    requires |d| <= |p| && d == p[..|d|] && at + n <= |d|
    ensures d[at..][..n] == p[at..at + n] && d[at..][n..] == d[at + n..]
  {
    assert d[at..at + n] == p[at..at + n];
  }

  lemma PourNothing(fs: seq<Fragment>)
    requires AllSized(fs)
    ensures Pour(fs, []) == fs
  {
  }

  lemma PourStep(fs: seq<Fragment>, j: nat, e: seq<byte>)
    requires AllSized(fs) && j < |fs| && e != []
    ensures AllSized(fs[j..]) && AllSized(fs[j + 1..]) && |fs[j].buf| == fs[j].size
    ensures var k := Least(|e|, fs[j].size);
            Pour(fs[j..], e) == if Usable(fs[j]) then [Received(fs[j], e[..k])] + Pour(fs[j + 1..], e[k..])
              else [fs[j]] + Pour(fs[j + 1..], e)
  {
    assert fs[j..][1..] == fs[j + 1..];
  }

  // ---- finding the listener ----

  // A socket and the blocks that listen on it, next one first.
  datatype Socket = Socket(number: nat, list: seq<Ecb>)

  // The first socket from i on with this number.
  function FindSocket(sockets: seq<Socket>, number: nat, i: nat): (j: nat)
    requires i <= |sockets|
    ensures i <= j <= |sockets| && (j < |sockets| ==> sockets[j].number == number)
    ensures forall m :: i <= m < j ==> sockets[m].number != number
    decreases |sockets| - i
  {
    if i == |sockets| || sockets[i].number == number then i else FindSocket(sockets, number, i + 1)
  }

  class Receiver {
    var sockets: seq<Socket>       // socketTable, as far as it is in use

    ghost predicate Listens(e: Ecb)
      reads this
    {
      exists i :: 0 <= i < |sockets| && e in sockets[i].list
    }

    ghost predicate Valid()
      reads this, set i, j | 0 <= i < |sockets| && 0 <= j < |sockets[i].list| :: sockets[i].list[j]
    {
      forall i, j :: 0 <= i < |sockets| && 0 <= j < |sockets[i].list| ==> sockets[i].list[j].Valid()
    }

    // IPXInput: the packet p for a socket number goes to the first block on that socket's list,
    // which leaves the list; nobody else is touched.
    method Dispatch(number: nat, p: seq<byte>, dataLen: int)
      requires Valid() && dataLen <= |p|
      modifies this, set i, j | 0 <= i < |sockets| && 0 <= j < |sockets[i].list| :: sockets[i].list[j]
      ensures var i := FindSocket(old(sockets), number, 0);
              if i == |old(sockets)| || old(sockets)[i].list == [] then sockets == old(sockets)
              else
                var e := old(sockets)[i].list[0];
                && sockets == old(sockets)[i := Socket(number, old(sockets)[i].list[1..])]
                && (old(e.inUse) == RECEIVING ==>
                      && e.inUse == OKAY && old(AllSized(e.frags))
                      && e.frags == Pour(old(e.frags), p[..if dataLen > 0 then dataLen else 0]))
                && (old(e.inUse) != RECEIVING ==> e.frags == old(e.frags))
      ensures forall e: Ecb :: old(allocated(e)) && old(Listens(e))
                && !(var i := FindSocket(old(sockets), number, 0);
                   i < |old(sockets)| && old(sockets)[i].list != [] && e == old(sockets)[i].list[0])
                ==> e.frags == old(e.frags) && e.inUse == old(e.inUse)
    {
      var i := 0;
      while i < |sockets|
        invariant 0 <= i <= |sockets| && sockets == old(sockets)
        invariant FindSocket(sockets, number, i) == FindSocket(sockets, number, 0)
        invariant forall e: Ecb :: old(allocated(e)) ==>
                    e.frags == old(e.frags) && e.inUse == old(e.inUse) && e.socket == old(e.socket)
      {
        if sockets[i].number == number {
          if sockets[i].list == [] { return; }
          var e := sockets[i].list[0];
          assert e.Valid();
          sockets := sockets[i := Socket(number, sockets[i].list[1..])];
          Input(e, p, dataLen);
          return;
        }
        i := i + 1;
      }
    }
  }

  // The header fields of what is sent: NetBEUI packets go as they are, all others with an empty
  // checksum, their length and the sender's address.
  lemma PacketFields(fs: seq<Fragment>, netbeui: bool, st: Station, socket: nat)
    requires AllSized(fs) && Sendable(fs) && Proper(st) && socket < 65536
    ensures var p, c := Packet(fs, netbeui, st, socket), Concat(fs);
            && |p| == |c| == Sum(fs) >= 30
            && (netbeui ==> p == c)
            && (!netbeui ==>
                  && p[0] == 0xFF && p[1] == 0xFF && p[2] as int * 256 + p[3] as int == Sum(fs) && p[4] == 0
                  && p[18..22] == st.network && p[22..28] == st.node && p[28] as int * 256 + p[29] as int == socket
                  && p[5..18] == c[5..18] && p[30..] == c[30..])
  {
    hide Concat, Sum;
    ConcatSize(fs);
    FirstCounts(fs);
    var p := Packet(fs, netbeui, st, socket);
    if !netbeui {
      var r := st.network + st.node + [socket / 256, socket % 256];
      assert p[18..30] == r && r[..4] == st.network && r[4..10] == st.node;
      assert p[18..30][..4] == p[18..22] && p[18..30][4..10] == p[22..28];
      assert p[28] == p[18..30][10] && p[29] == p[18..30][11];
      assert p[..5][0] == p[0] && p[..5][1] == p[1] && p[..5][2] == p[2] && p[..5][3] == p[3] && p[..5][4] == p[4];
    }
  }

  // ---- from one end to the other ----

  // What a listener gets of what was sent: the packet, in order and as far as there is room;
  // outside the fields the sender rewrites, that is what its fragments held.
  lemma EndToEnd(fs: seq<Fragment>, netbeui: bool, st: Station, socket: nat, ls: seq<Fragment>)
    requires AllSized(fs) && AllSized(ls) && Sendable(fs) && Proper(st) && socket < 65536
    ensures var p := Packet(fs, netbeui, st, socket);
            var m := Least(|p|, |Room(ls)|);
            && |p| == |Concat(fs)| == Sum(fs)
            && Room(Pour(ls, p)) == p[..m] + Room(ls)[m..]
            && forall i :: 0 <= i < |p| && (5 <= i < 18 || 30 <= i) ==> p[i] == Concat(fs)[i]
  {
    hide Pour, Room;
    ConcatSize(fs);
    var p, c := Packet(fs, netbeui, st, socket), Concat(fs);
    PourFills(ls, p);
    forall i | 0 <= i < |p| && (5 <= i < 18 || 30 <= i) ensures p[i] == c[i] {
      if |c| >= MIN_PACKET && !netbeui {
        if i < 18 { assert p[5..18][i - 5] == c[5..18][i - 5]; } else { assert p[30..][i - 30] == c[30..][i - 30]; }
      }
    }
  }

  // The size check lets exactly the allowed packets through if and only if the sizes sum to less
  // than 64K or to something whose low 16 bits are above the limit.
  lemma SizeCheckExact(fs: seq<Fragment>)
    requires fs != [] && fs[0].size >= MIN_PACKET
    ensures (Passes(fs) <==> Sendable(fs)) <==> Sum(fs) < 65536 || Sum(fs) % 65536 > MAX_PACKET
    ensures (Passes(fs) <==> Sendable(fs)) <==> !Overruns(fs)
  {
    hide Sum;
    if Sum(fs) < 65536 { assert Sum(fs) % 65536 == Sum(fs); }
  }

  // Every pair of sizes that wraps to a small sum overruns the buffer, and there is one for
  // each first size from 30 on that exceeds that sum.
  lemma WrapOverruns(first: nat, total: nat)
    requires MIN_PACKET <= first < 65536 && total <= MAX_PACKET && 0 <= total + 65536 - first < 65536
    ensures var fs := [Fragment(true, first, 0, seq(first, _ => 0)),
                       Fragment(true, total + 65536 - first, 0, seq(total + 65536 - first, _ => 0))];
            AllSized(fs) && Overruns(fs) && |Concat(fs)| > PKT_BUFFER
  {
    var f, g := Fragment(true, first, 0, seq(first, _ => 0)),
        Fragment(true, total + 65536 - first, 0, seq(total + 65536 - first, _ => 0));
    assert [f, g][..1] == [f] && [f][..0] == [];
    assert Sum([f]) == first && Sum([f, g]) == total + 65536;
    ConcatSize([f, g]);
  }
}
