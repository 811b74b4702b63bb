// tool source/MAKEIMG/makimage.c: headers, EEPROM checksums and the ALLFLASH merge, in
// the buffer the output file is written from.
module ImageMaker {
  import opened Bits
  import opened Crc32
  import opened Image
  import opened Buffer

  // ---- headers ----

  datatype Version = Version(major: nat, minor: nat, release: nat, rd: nat, build: nat, model: nat)

  // The header behind the checksum, up to the printed version and date.
  function Front(bintype: byte, len: nat, next: byte): (r: seq<byte>)
    ensures |r| == 28
  {
    [0x58, 0x47, 0x5A, bintype] + Le(len, 4) + [next] + Fill(0, 19)
  }

  function Back(v: Version, text: seq<byte>): (r: seq<byte>)
    ensures |r| == 10 + |text|
  {
    Le(v.major, 1) + Le(v.minor, 1) + Le(v.model, 1) + Le(v.release, 1) + Le(v.rd, 4) + Le(v.build, 2) + text
  }

  // A header without its checksum.
  function Fields(bintype: byte, len: nat, next: byte, v: Version, text: seq<byte>): (r: seq<byte>)
    requires |text| <= 214
    ensures |r| == 252
  {
    Front(bintype, len, next) + Back(v, text) + Fill(0, 214 - |text|)
  }

  // A header and its payload.
  function Built(bintype: byte, next: byte, v: Version, text: seq<byte>, payload: seq<byte>): (r: seq<byte>)
    requires |text| <= 214
    ensures |r| == HDR + |payload|
  {
    var body := Fields(bintype, |payload|, next, v, text) + payload;
    CrcBytes(Crc(body, Ones())) + body
  }

  lemma BuiltSound(bintype: byte, next: byte, v: Version, text: seq<byte>, payload: seq<byte>)
    requires |text| <= 214 && |payload| < 0x1_0000_0000
    ensures var img := Built(bintype, next, v, text, payload);
            && Sound(img) && FileLen(img) == |payload| && img[HDR..] == payload
            && img[4..8] == [0x58, 0x47, 0x5A, bintype] && img[12] == next
  {
    hide Crc, CrcBytes, Le, Unle, Back;
    var f := Fields(bintype, |payload|, next, v, text);
    var body := f + payload;
    var img := Built(bintype, next, v, text, payload);
    assert img[4..] == body;
    assert img[4..8] == [0x58, 0x47, 0x5A, bintype] && img[8..12] == Le(|payload|, 4) && img[12] == next;
    FourBytes();
    UnleLe(|payload|, 4);
  }

  // The fields of the header, by their offsets.
  lemma BuiltFields(bintype: byte, next: byte, v: Version, text: seq<byte>, payload: seq<byte>)
    requires |text| <= 214 && |payload| < 0x1_0000_0000 && v.rd < 0x1_0000_0000 && v.build < 0x1_0000
    ensures var img := Built(bintype, next, v, text, payload);
            && Unle(img[8..12]) == |payload| && img[32] as int == v.major % 256 && img[33] as int == v.minor % 256
            && img[34] as int == v.model % 256 && img[35] as int == v.release % 256
            && Unle(img[36..40]) == v.rd && Unle(img[40..42]) == v.build && img[42..42 + |text|] == text
            && (forall i :: 13 <= i < 32 || 42 + |text| <= i < HDR ==> img[i] == 0)
  {
    hide Crc, CrcBytes, Unle, Le;
    var img := Built(bintype, next, v, text, payload);
    BuiltSound(bintype, next, v, text, payload);
    var front, back := Front(bintype, |payload|, next), Back(v, text);
    var sum, rest := img[..4], Fill(0, 214 - |text|) + payload;
    assert img == sum + front + (back + rest);
    assert img[32..] == back + rest;
    OneByte(v.major);
    OneByte(v.minor);
    OneByte(v.model);
    OneByte(v.release);
    assert back[4..8] == Le(v.rd, 4) && back[8..10] == Le(v.build, 2) && back[10..] == text;
    assert img[36..40] == back[4..8] && img[40..42] == back[8..10] && img[42..42 + |text|] == back[10..];
    FourBytes();
    TwoBytes();
    UnleLe(v.rd, 4);
    UnleLe(v.build, 2);
    forall i | 13 <= i < 32 || 42 + |text| <= i < HDR ensures img[i] == 0 {
      if i < 32 { assert img[i] == front[i - 4]; } else { assert img[i] == rest[i - 42 - |text|]; }
    }
  }

  lemma OneByte(n: nat)
    ensures Le(n, 1) == [n % 256]
  {
  }

  lemma TwoBytes()
    ensures Pow256(2) == 65536
  {
  }

  // The next flag and the checksum of an image brought up to date.
  function Stamped(img: seq<byte>, next: byte): (r: seq<byte>)
    requires |img| >= HDR
    ensures |r| == |img|
  {
    Checksum(img[12 := next]) + img[12 := next][4..]
  }

  // Stamping makes a sound image and touches nothing but the checksum and the flag.
  lemma StampedSound(img: seq<byte>, next: byte)
    requires |img| >= HDR && |img| == HDR + FileLen(img)
    ensures var r := Stamped(img, next);
            Sound(r) && FileLen(r) == FileLen(img) && r[12] == next && r[13..] == img[13..] && r[4..12] == img[4..12]
  {
    hide Crc, CrcBytes, Unle;
    var a, r := img[12 := next], Stamped(img, next);
    assert r[4..] == a[4..];
    assert r[8..12] == r[4..][4..8] && a[8..12] == a[4..][4..8] && a[8..12] == img[8..12];
    assert r[4..12] == r[4..][..8] && a[4..12] == a[4..][..8] && a[4..12] == img[4..12];
    assert r[13..] == r[4..][9..] && a[13..] == a[4..][9..] && a[13..] == img[13..];
    assert r[12] == r[4..][8] && a[12] == a[4..][8];
  }

  // ---- EEPROM ----

  // The last four bytes are the checksum of the others.
  function Sealed(p: seq<byte>): (r: seq<byte>)
    requires |p| >= 4
    ensures |r| == |p|
  {
    p[..|p| - 4] + CrcBytes(Crc(p[..|p| - 4], Ones()))
  }

  // The checksum of a sealed block is zero.
  lemma SealedResidue(p: seq<byte>)
    requires |p| >= 4
    ensures Crc(Sealed(p), Ones()) == Zero() && Sealed(p)[..|p| - 4] == p[..|p| - 4]
  {
    hide Crc, CrcBytes;
    var q := p[..|p| - 4];
    CrcAppend(q, CrcBytes(Crc(q, Ones())), Ones());
    SelfCancels(Crc(q, Ones()));
  }

  lemma SelfCancels(c: Reg)
    ensures Crc(CrcBytes(c), c) == Zero()
  {
    hide Stream, CrcBytes, BitCrc, W, Xor, Steps;
    var s := Stream(CrcBytes(c));
    AtOnce(s, c);
    RegOfCrcBytes(c);
    XorSelf(c);
    StepsZero(32);
  }

  lemma XorSelf(c: Reg)
    ensures Xor(c, c) == Zero()
  {
    XorSelfBv(c.w);
  }

  lemma XorSelfBv(a: bv32)
    ensures XorBv(a, a) == 0
  {
  }

  // EEPROMChksum, on n bytes at p.  Below four bytes the unsigned length n - 4 wraps and the
  // checksum runs out of the buffer, which ends the model's run.
  method EepromChksum(buf: array<byte>, p: nat, n: nat) returns (within: bool)
    requires p + n <= buf.Length < 0xFFFF_FFFC
    modifies buf
    ensures within <==> p + Unsigned(n - 4) <= buf.Length
    ensures within <==> n >= 4
    ensures within ==> buf[..] == Patch(old(buf[..]), p, Sealed(old(buf[p..p + n])))
  {
    hide Crc, CrcBytes, Patch, Sealed;
    if n < 4 { return false; }
    ghost var s, b := buf[..], buf[p..p + n];
    SliceTake(s, p, p + n, n - 4);
    assert buf[p..p + n - 4] == s[p..p + n - 4];
    var chksum := TableCrc(buf[p..p + n - 4], Ones());
    Memcpy(buf, p + n - 4, CrcBytes(chksum));
    LastPatched(s, p, n);
    return true;
  }

  lemma LastPatched(s: seq<byte>, p: nat, n: nat)
    requires 4 <= n && p + n <= |s|
    ensures Patch(s, p + n - 4, CrcBytes(Crc(s[p..p + n - 4], Ones()))) == Patch(s, p, Sealed(s[p..p + n]))
  {
    hide Crc, CrcBytes;
    SliceTake(s, p, p + n, n - 4);
  }

  // A 32-bit unsigned value.
  function Unsigned(n: int): nat { n % 0x1_0000_0000 }

  // ---- the merge ----

  // A sub-image file and the type given for it on the command line.
  datatype Part = Part(bintype: byte, file: seq<byte>)

  // The file is one image as its length field says.
  predicate WellFormed(p: Part) { |p.file| >= HDR && |p.file| == HDR + FileLen(p.file) }

  function Prepared(p: Part): (r: seq<byte>)
    requires |p.file| >= HDR
    ensures |r| == |p.file|
  {
    if p.bintype == EEPROM_TYPE then Sealed(p.file) else p.file
  }

  function Flag(i: nat, n: nat): byte { if i + 1 < n then 1 else 100 }

  // The i-th image of n in its final form.
  function Final(p: Part, i: nat, n: nat): (r: seq<byte>)
    requires WellFormed(p)
    ensures |r| == |p.file|
  {
    Stamped(Prepared(p), Flag(i, n))
  }

  ghost predicate AllWellFormed(parts: seq<Part>) { forall i :: 0 <= i < |parts| ==> WellFormed(parts[i]) }

  // The first k images, one behind the other.
  function Chain(parts: seq<Part>, k: nat): seq<byte>
    requires AllWellFormed(parts) && k <= |parts|
  {
    if k == 0 then [] else Chain(parts, k - 1) + Final(parts[k - 1], k - 1, |parts|)
  }

  function Total(parts: seq<Part>, k: nat): nat
    requires k <= |parts|
  {
    if k == 0 then 0 else Total(parts, k - 1) + |parts[k - 1].file|
  }

  lemma {:induction false} ChainSize(parts: seq<Part>, k: nat)
    requires AllWellFormed(parts) && k <= |parts|
    ensures |Chain(parts, k)| == Total(parts, k)
  {
    hide Final, WellFormed;
    if k > 0 { ChainSize(parts, k - 1); }
  }

  lemma {:induction false} TotalGrows(parts: seq<Part>, j: nat, k: nat)
    requires j <= k <= |parts|
    ensures Total(parts, j) <= Total(parts, k)
    decreases k
  {
    if j < k { TotalGrows(parts, j, k - 1); }
  }

  // A sealed file keeps its header, and with it its length.
  lemma PreparedLen(p: Part)
    requires WellFormed(p)
    ensures |Prepared(p)| == HDR + FileLen(Prepared(p)) && Prepared(p)[..12] == p.file[..12]
  {
    hide Crc, CrcBytes, Unle;
    var r := Prepared(p);
    assert r[..12] == p.file[..12];
    assert r[8..12] == r[..12][8..] && p.file[8..12] == p.file[..12][8..];
  }

  lemma FinalSound(p: Part, i: nat, n: nat)
    requires WellFormed(p)
    ensures var r := Final(p, i, n); Sound(r) && FileLen(r) == FileLen(p.file) && r[12] == Flag(i, n)
  {
    hide Crc, CrcBytes, Unle, Sealed, Stamped, Sound;
    PreparedLen(p);
    assert Prepared(p)[8..12] == Prepared(p)[..12][8..] && p.file[8..12] == p.file[..12][8..];
    StampedSound(Prepared(p), Flag(i, n));
  }

  // ---- walking the chain ----

  // Step from image to image by the length fields, up to the one flagged 100.
  function Walk(buf: seq<byte>, off: nat): seq<seq<byte>>
    decreases |buf| - off
  {
    if off + HDR > |buf| then []
    else
      var size := HDR + Unle(buf[off + 8..off + 12]);
      if off + size > |buf| then []
      else
        var img := buf[off..off + size];
        if buf[off + 12] == 100 then [img] else [img] + Walk(buf, off + size)
  }

  // The images from the k-th on.
  function Images(parts: seq<Part>, k: nat): (r: seq<seq<byte>>)
    requires AllWellFormed(parts) && k <= |parts|
    ensures |r| == |parts| - k
    decreases |parts| - k
  {
    if k == |parts| then [] else [Final(parts[k], k, |parts|)] + Images(parts, k + 1)
  }

  // buf holds the chain from offset 256 on.
  ghost predicate HoldsChain(buf: seq<byte>, parts: seq<Part>)
    requires AllWellFormed(parts)
  {
    && HDR + Total(parts, |parts|) <= |buf|
    && forall i :: 0 <= i < |parts| ==> ImageAt(buf, HDR + Total(parts, i), Final(parts[i], i, |parts|))
  }

  ghost predicate ImageAt(buf: seq<byte>, off: nat, img: seq<byte>)
  {
    off + |img| <= |buf| && buf[off..off + |img|] == img
  }

  lemma WalkStep(buf: seq<byte>, off: nat, img: seq<byte>)
    requires ImageAt(buf, off, img) && Sound(img)
    ensures Walk(buf, off) == if img[12] == 100 then [img] else [img] + Walk(buf, off + |img|)
  {
    hide Crc, CrcBytes, Unle;
    SliceOfSlice(buf, off, off + |img|, 8, 12);
    assert buf[off + 12] == buf[off..off + |img|][12];
  }

  lemma ImagesStep(parts: seq<Part>, k: nat)
    requires AllWellFormed(parts) && k < |parts|
    ensures var img := Final(parts[k], k, |parts|);
            Images(parts, k) == if k + 1 == |parts| then [img] else [img] + Images(parts, k + 1)
    ensures Total(parts, k + 1) == Total(parts, k) + |Final(parts[k], k, |parts|)|
  {
    hide Final;
  }

  lemma {:induction false} WalkFrom(buf: seq<byte>, parts: seq<Part>, k: nat)
    requires AllWellFormed(parts) && HoldsChain(buf, parts) && k < |parts|
    ensures Walk(buf, HDR + Total(parts, k)) == Images(parts, k)
    decreases |parts| - k
  {
    hide Walk, Final, ImageAt, Sound, Images, Total, WellFormed;
    var img := Final(parts[k], k, |parts|);
    assert ImageAt(buf, HDR + Total(parts, k), img);
    FinalSound(parts[k], k, |parts|);
    WalkStep(buf, HDR + Total(parts, k), img);
    ImagesStep(parts, k);
    if k + 1 < |parts| { WalkFrom(buf, parts, k + 1); }
  }

  lemma {:induction false} ChainPrefix(parts: seq<Part>, j: nat, k: nat)
    requires AllWellFormed(parts) && j <= k <= |parts|
    ensures |Chain(parts, j)| <= |Chain(parts, k)| && Chain(parts, k)[..|Chain(parts, j)|] == Chain(parts, j)
    decreases k
  {
    hide Final, WellFormed;
    if j < k {
      ChainPrefix(parts, j, k - 1);
      var c := Chain(parts, k - 1);
      assert Chain(parts, k)[..|Chain(parts, j)|] == c[..|Chain(parts, j)|];
    }
  }

  lemma ImageInChain(parts: seq<Part>, i: nat, head: seq<byte>, tail: seq<byte>)
    requires AllWellFormed(parts) && i < |parts| && |head| == HDR
    ensures ImageAt(head + Chain(parts, |parts|) + tail, HDR + Total(parts, i), Final(parts[i], i, |parts|))
  {
    hide Final, WellFormed, Total;
    var n := |parts|;
    var c, img := Chain(parts, n), Final(parts[i], i, n);
    ChainPrefix(parts, i + 1, n);
    ChainSize(parts, i);
    var d := Chain(parts, i);
    assert c[..|d| + |img|] == d + img;
    assert c[|d|..|d| + |img|] == c[..|d| + |img|][|d|..] == img;
    var buf := head + c + tail;
    assert buf[HDR + |d|..HDR + |d| + |img|] == c[|d|..|d| + |img|];
  }

  // Walking any buffer that holds the merged images visits exactly those, in order, up to the last.
  lemma WalkVisitsAll(parts: seq<Part>, head: seq<byte>, tail: seq<byte>)
    requires AllWellFormed(parts) && |parts| > 0 && |head| == HDR
    ensures var w := Walk(head + Chain(parts, |parts|) + tail, HDR);
            && |w| == |parts|
            && forall i :: 0 <= i < |parts| ==> w[i] == Final(parts[i], i, |parts|)
  {
    hide Final, WellFormed, Walk, Images, ImageAt;
    var buf := head + Chain(parts, |parts|) + tail;
    ChainSize(parts, |parts|);
    forall i | 0 <= i < |parts| ensures ImageAt(buf, HDR + Total(parts, i), Final(parts[i], i, |parts|)) {
      ImageInChain(parts, i, head, tail);
    }
    WalkFrom(buf, parts, 0);
    forall i | 0 <= i < |parts| ensures Images(parts, 0)[i] == Final(parts[i], i, |parts|) { ImagesAt(parts, 0, i); }
  }

  lemma {:induction false} ImagesAt(parts: seq<Part>, k: nat, i: nat)
    requires AllWellFormed(parts) && k <= i < |parts|
    ensures Images(parts, k)[i - k] == Final(parts[i], i, |parts|)
    decreases |parts| - k
  {
    hide Final, WellFormed;
    if k < i { ImagesAt(parts, k + 1, i); }
  }

  // ---- the program ----

  // What a run of the program comes to.  Strays: a checksum is taken over bytes outside the buffer.
  datatype Outcome = File(bytes: seq<byte>) | Refused | Strays

  // The images fit the buffer, but the global header's checksum runs over 256 bytes more than
  // are left behind them.
  predicate Overreads(total: nat) { HDR + total < MEM_SIZE < 2 * HDR + total }

  // Fewer than four bytes are left for some EEPROM file.
  predicate Cramped(parts: seq<Part>)
  {
    exists i :: 0 <= i < |parts| && CrampedAt(parts, i)
  }

  predicate CrampedAt(parts: seq<Part>, i: nat)
    requires i < |parts|
  {
    parts[i].bintype == EEPROM_TYPE && MEM_SIZE - 4 < HDR + Total(parts, i) < MEM_SIZE
  }

  // One sub-image of a size in this range is an input on which the merge reads past its buffer.
  lemma OverreadImage(bintype: byte, v: Version, text: seq<byte>, payload: seq<byte>)
    requires |text| <= 214 && MEM_SIZE - 3 * HDR < |payload| < MEM_SIZE - 2 * HDR
    ensures var parts := [Part(bintype, Built(bintype, 0, v, text, payload))];
            AllWellFormed(parts) && Overreads(Total(parts, 1)) && !Cramped(parts)
  {
    hide Built, Sound;
    var p := Part(bintype, Built(bintype, 0, v, text, payload));
    BuiltSound(bintype, 0, v, text, payload);
    assert Total([p], 1) == Total([p], 0) + |p.file|;
  }

  class Maker {
    const mem: array<byte>     // pDestMem

    ghost predicate Valid() { mem.Length == MEM_SIZE }

    constructor ()
      ensures Valid() && fresh(mem)
    {
      mem := new byte[MEM_SIZE];
    }

    method Memset(x: byte, n: nat)
      requires Valid() && n <= MEM_SIZE
      modifies mem
      ensures mem[..] == Fill(x, n) + old(mem[n..])
    {
      var i := 0;
      while i < n
        invariant 0 <= i <= n
        invariant forall j :: 0 <= j < i ==> mem[j] == x
        invariant forall j :: i <= j < mem.Length ==> mem[j] == old(mem[j])
      {
        mem[i] := x;
        i := i + 1;
      }
    }

    // SetupHeader on a cleared header at the start of the buffer, in address order.
    method SetupHeader(bintype: byte, v: Version, text: seq<byte>, n: nat, next: byte) returns (within: bool)
      requires Valid() && mem[..HDR] == Fill(0, HDR) && |text| <= 214
      modifies mem
      ensures within <==> HDR + n <= MEM_SIZE
      ensures within ==> mem[..] == Built(bintype, next, v, text, old(mem[HDR..HDR + n])) + old(mem[HDR + n..])
    {
      hide Crc, CrcBytes, Le, Built, Fields, Patch, Back;
      ghost var s, rest := mem[..], mem[HDR..];
      assert s == Fill(0, HDR) + rest;
      FieldsWritten(bintype, v, text, n, next, rest);
      Memcpy(mem, 4, [0x58, 0x47, 0x5A, bintype]);
      Memcpy(mem, 8, Le(n, 4));
      Memcpy(mem, 12, [next]);
      Memcpy(mem, 32, Back(v, text));
      if HDR + n > MEM_SIZE { return false; }
      ghost var f := Fields(bintype, n, next, v, text);
      var crc := TableCrc(mem[4..HDR + n], Ones());
      BodyIs(mem[..], f, rest, n);
      assert mem[4..HDR + n] == mem[..][4..HDR + n];
      Memcpy(mem, 0, CrcBytes(crc));
      SetupDone(mem[..], f, rest, n, crc);
      BuiltIs(bintype, next, v, text, rest[..n]);
      assert rest[..n] == old(mem[HDR..HDR + n]) && rest[n..] == old(mem[HDR + n..]);
      return true;
    }

    // UpdateHeader on the image at offset o
    method UpdateHeader(o: nat, next: byte)
      requires Valid() && o + HDR <= MEM_SIZE && o + HDR + FileLen(mem[o..o + HDR]) <= MEM_SIZE
      modifies mem
      ensures var img := old(mem[o..o + HDR + FileLen(mem[o..o + HDR])]);
              mem[..] == Patch(old(mem[..]), o, Stamped(img, next))
    {
      hide Crc, CrcBytes, Unle;
      ghost var s, img := mem[..], mem[o..o + HDR + FileLen(mem[o..o + HDR])];
      SliceOfSlice(s, o, o + HDR, 8, 12);
      var len := NGet32(mem[o + 8..o + 12]);
      ghost var a := img[12 := next];
      mem[o + 12] := next;
      assert mem[..] == s[o + 12 := next];
      FlagSet(s, o, HDR + len, next);
      var crc := TableCrc(mem[o + 4..o + HDR + len], Ones());
      assert mem[o + 4..o + HDR + len] == mem[..][o + 4..o + HDR + len];
      Memcpy(mem, o, CrcBytes(crc));
      FrontPatched(s, o, a, CrcBytes(crc));
    }

    // The branch for one image (makimage.c:279-327).
    method MakeSingle(src: seq<byte>, bintype: byte, v: Version, text: seq<byte>) returns (r: Outcome)
      requires Valid() && |text| <= 214
      modifies mem
      ensures r == if bintype == EEPROM_TYPE && |src| < 4 then Strays
                   else if |src| >= MEM_SIZE - HDR then Refused
                   else File(Built(bintype, 0, v, text, if bintype == EEPROM_TYPE then Sealed(src) else src))
    {
      hide Crc, CrcBytes, Built, Sealed;
      Memset(0xFF, MEM_SIZE);
      var nRead: nat := if |src| < MEM_SIZE - HDR then |src| else MEM_SIZE - HDR;
      Memcpy(mem, HDR, src[..nRead]);
      assert mem[HDR..HDR + nRead] == src[..nRead];
      var within := true;
      if bintype == EEPROM_TYPE { within := EepromChksum(mem, HDR, nRead); }
      if !within { return Strays; }
      ghost var p := if bintype == EEPROM_TYPE then Sealed(src[..nRead]) else src[..nRead];
      assert mem[HDR..HDR + nRead] == mem[..][HDR..HDR + nRead];
      assert mem[HDR..HDR + nRead] == p;
      if nRead == MEM_SIZE - HDR { return Refused; }
      assert src[..nRead] == src;
      ghost var rest := mem[HDR..];
      DropTake(mem[..], HDR, nRead);
      assert mem[..][HDR..] == rest;
      Memset(0, HDR);
      Overlaid(mem[..], rest, HDR, nRead);
      assert mem[HDR..HDR + nRead] == mem[..][HDR..HDR + nRead];
      assert mem[..HDR] == mem[..][..HDR];
      within := SetupHeader(bintype, v, text, nRead, 0);
      return File(mem[..nRead + HDR]);
    }

    // makimage.c:364-422: one file into the buffer at offset h; not ok when it is too large.
    method AddPart(p: Part, h: nat, memRemain: nat, next: byte) returns (ok: bool, within: bool, nRead: nat)
      requires Valid() && WellFormed(p) && h + memRemain == MEM_SIZE
      modifies mem
      ensures ok <==> |p.file| < memRemain
      ensures within <==> !(p.bintype == EEPROM_TYPE && 0 < memRemain < 4)
      ensures ok ==> nRead == |p.file| && mem[..] == Patch(old(mem[..]), h, Stamped(Prepared(p), next))
    {
      hide Crc, CrcBytes, Stamped, Sealed, Unle;
      nRead := if |p.file| < memRemain then |p.file| else memRemain;
      within := true;
      if nRead == 0 { return false, true, 0; }
      var tempbuf := new byte[MEM_SIZE];
      Memcpy(tempbuf, 0, p.file[..nRead]);
      assert tempbuf[0..nRead] == p.file[..nRead];
      if p.bintype == EEPROM_TYPE { within := EepromChksum(tempbuf, 0, nRead); }
      if !within { return false, false, nRead; }
      ghost var s := mem[..];
      ghost var t := tempbuf[..nRead];
      Memcpy(mem, h, tempbuf[..nRead]);
      if nRead == memRemain { return false, true, nRead; }
      assert p.file[..nRead] == p.file;
      assert t == Prepared(p);
      PreparedLen(p);
      PatchRead(s, h, t, mem[..]);
      assert mem[h..h + HDR] == mem[..][h..h + HDR];
      assert t[8..12] == t[..HDR][8..12];
      UpdateHeader(h, next);
      PatchTwice(s, h, t, Stamped(t, next));
      return true, true, nRead;
    }

    // The ALLFLASH branch (makimage.c:328-436): refused when the files or the flash are too
    // large or small.  The output is one image whose payload is the chain and 256 bytes of 0xFF.
    method Merge(parts: seq<Part>, flashSize: nat, v: Version, text: seq<byte>) returns (r: Outcome)
      requires Valid() && |text| <= 214 && AllWellFormed(parts)
      modifies mem
      ensures r.Strays? <==> Overreads(Total(parts, |parts|)) || Cramped(parts)
      ensures r.File? <==> 2 * HDR + Total(parts, |parts|) <= MEM_SIZE && 2 * HDR + Total(parts, |parts|) <= flashSize
      ensures r.File? ==> r.bytes == Built(0xB0, 1, v, text, Chain(parts, |parts|) + Fill(0xFF, HDR))
    {
      hide Crc, CrcBytes, Built, Total, Chain, Patch, WellFormed, Final, Stamped, Prepared, Fill;
      Memset(0xFF, MEM_SIZE);
      var memRemain: nat := MEM_SIZE - HDR;
      var h, nTotal, i := HDR, HDR, 0;
      ChainStart(parts);
      FillSplit(0xFF, HDR, memRemain);
      assert mem[..] == Fill(0xFF, HDR) + [] + Fill(0xFF, memRemain);
      while i < |parts|
        invariant 0 <= i <= |parts|
        invariant h == nTotal == HDR + Total(parts, i) && h + memRemain == MEM_SIZE && memRemain > 0
        invariant |Chain(parts, i)| == Total(parts, i)
        invariant mem[..] == Fill(0xFF, HDR) + Chain(parts, i) + Fill(0xFF, memRemain)
        invariant forall j :: 0 <= j < i ==> !CrampedAt(parts, j)
      {
        TotalGrows(parts, i + 1, |parts|);
        ChainStep(parts, i);
        var hasnext: byte := if |parts| - i > 1 then 1 else 100;
        var ok, within, nRead := AddPart(parts[i], h, memRemain, hasnext);
        assert !within <==> CrampedAt(parts, i);
        if !within { return Strays; }
        if !ok {
          NothingCramped(parts, i + 1);
          return Refused;
        }
        PatchFill(Fill(0xFF, HDR) + Chain(parts, i), 0xFF, memRemain, Final(parts[i], i, |parts|));
        assert Fill(0xFF, HDR) + Chain(parts, i) + Final(parts[i], i, |parts|) == Fill(0xFF, HDR) + Chain(parts, i + 1);
        nTotal := nTotal + nRead;
        memRemain := memRemain - nRead;
        h := h + nRead;
        i := i + 1;
      }
      ghost var payload := Chain(parts, |parts|) + Fill(0xFF, HDR);
      if memRemain >= HDR { Payload(mem[..], Chain(parts, |parts|), memRemain); }
      assert mem[HDR..] == mem[..][HDR..];
      Memset(0, HDR);
      if memRemain >= HDR { Cleared(mem[..], payload, nTotal); }
      var within := SetupHeader(0xB0, v, text, nTotal, 1);
      if !within { return Strays; }
      nTotal := nTotal + HDR;
      if nTotal > flashSize { return Refused; }
      return File(mem[..nTotal]);
    }
  }

  // The part behind a cleared front is as it was.
  lemma Overlaid(m: seq<byte>, rest: seq<byte>, h: nat, n: nat)
    requires m == Fill(0, h) + rest && n <= |rest|
    ensures m[h..h + n] == rest[..n] && m[..h] == Fill(0, h)
  {
  }

  lemma DropTake(m: seq<byte>, h: nat, n: nat)
    requires h + n <= |m|
    ensures m[h..][..n] == m[h..h + n]
  {
  }

  // Once a file does not fit, none behind it is near the end of the buffer.
  lemma NothingCramped(parts: seq<Part>, i: nat)
    requires i <= |parts| && HDR + Total(parts, i) >= MEM_SIZE && forall j :: 0 <= j < i ==> !CrampedAt(parts, j)
    ensures !Cramped(parts)
  {
    forall j | i <= j < |parts| ensures !CrampedAt(parts, j) { TotalGrows(parts, i, j); }
  }

  lemma Payload(m: seq<byte>, c: seq<byte>, n: nat)
    requires m == Fill(0xFF, HDR) + c + Fill(0xFF, n) && n >= HDR
    ensures m[HDR..] == c + Fill(0xFF, HDR) + Fill(0xFF, n - HDR)
  {
    assert Fill(0xFF, n) == Fill(0xFF, HDR) + Fill(0xFF, n - HDR);
  }

  lemma Cleared(m: seq<byte>, payload: seq<byte>, n: nat)
    requires n == |payload| && |m| >= HDR + n && m[..HDR] == Fill(0, HDR) && m[HDR..][..n] == payload
    ensures m[HDR..HDR + n] == payload
  {
  }

  lemma ChainStart(parts: seq<Part>)
    requires AllWellFormed(parts)
    ensures Chain(parts, 0) == [] && Total(parts, 0) == 0
  {
  }

  lemma ChainStep(parts: seq<Part>, i: nat)
    requires AllWellFormed(parts) && i < |parts|
    ensures WellFormed(parts[i]) && Chain(parts, i + 1) == Chain(parts, i) + Final(parts[i], i, |parts|)
    ensures Total(parts, i + 1) == Total(parts, i) + |parts[i].file|
    ensures Final(parts[i], i, |parts|) == Stamped(Prepared(parts[i]), if |parts| - i > 1 then 1 else 100)
  {
    hide Stamped, Prepared;
  }

  lemma FlagSet(s: seq<byte>, o: nat, n: nat, next: byte)
    requires HDR <= n && o + n <= |s|
    ensures var a, m := s[o..o + n][12 := next], s[o + 12 := next];
            m == Patch(s, o, a) && m[o + 4..o + n] == a[4..]
  {
  }

  lemma FrontPatched(s: seq<byte>, o: nat, a: seq<byte>, c: seq<byte>)
    requires |c| == 4 && HDR <= |a| && o + |a| <= |s|
    ensures Patch(Patch(s, o, a), o, c) == Patch(s, o, c + a[4..])
  {
  }

  lemma PatchRead(s: seq<byte>, h: nat, t: seq<byte>, m: seq<byte>)
    requires h + |t| <= |s| && |t| >= HDR && m == Patch(s, h, t)
    ensures m[h..h + |t|] == t && m[h..h + HDR] == t[..HDR]
  {
  }

  lemma PatchTwice(s: seq<byte>, h: nat, t: seq<byte>, u: seq<byte>)
    requires |t| == |u| && h + |t| <= |s|
    ensures Patch(Patch(s, h, t), h, u) == Patch(s, h, u)
  {
  }

  // ---- what the programs promise each other ----

  // A single image with 1 to limit bytes of payload, placed in flash, passes the loader's
  // check with the payload's length.
  lemma SinglePassesCheck(bintype: byte, v: Version, text: seq<byte>, payload: seq<byte>, flash: seq<byte>, start: nat,
                          limit: nat)
    requires |text| <= 214 && 0 < |payload| <= limit <= 0xC0000 && start + HDR + limit <= |flash|
    requires ImageAt(flash, start, Built(bintype, 0, v, text, payload))
    ensures Accepts(flash, start, limit) && Unle(flash[start + 8..start + 12]) == |payload|
  {
    hide Built, Sound;
    BuiltSound(bintype, 0, v, text, payload);
    SoundAccepted(flash, start, limit, Built(bintype, 0, v, text, payload));
  }

  lemma SoundSize(img: seq<byte>)
    requires Sound(img)
    ensures |img| >= HDR
  {
  }

  // The merged output is itself sound, and walking it from offset 256 visits the images in
  // order, each sound, with the flag 1 on all but the last.
  lemma MergedChain(parts: seq<Part>, v: Version, text: seq<byte>)
    requires |text| <= 214 && AllWellFormed(parts) && |parts| > 0 && 2 * HDR + Total(parts, |parts|) < 0x1_0000_0000
    ensures var file := Built(0xB0, 1, v, text, Chain(parts, |parts|) + Fill(0xFF, HDR));
            var w := Walk(file, HDR);
            && Sound(file) && |w| == |parts|
            && forall i :: 0 <= i < |parts| ==>
                 && w[i] == Final(parts[i], i, |parts|) && Sound(w[i]) && |w[i]| >= HDR
                 && w[i][12] == if i == |parts| - 1 then 100 else 1
  {
    hide Sound, Final, Walk, WellFormed, Chain, Total;
    var payload := Chain(parts, |parts|) + Fill(0xFF, HDR);
    var file := Built(0xB0, 1, v, text, payload);
    ChainSize(parts, |parts|);
    BuiltSound(0xB0, 1, v, text, payload);
    var head := file[..HDR];
    assert file == head + Chain(parts, |parts|) + Fill(0xFF, HDR);
    WalkVisitsAll(parts, head, Fill(0xFF, HDR));
    forall i | 0 <= i < |parts|
      ensures var r := Final(parts[i], i, |parts|); Sound(r) && |r| >= HDR && r[12] == Flag(i, |parts|)
    {
      FinalSound(parts[i], i, |parts|);
      SoundSize(Final(parts[i], i, |parts|));
    }
  }

  // A field written into a zeroed header behind what is there already.
  lemma Field(a: seq<byte>, d: seq<byte>, n: nat, rest: seq<byte>)
    requires |d| <= n
    ensures Patch(Fill(0, 4) + (a + Fill(0, n)) + rest, 4 + |a|, d) == Fill(0, 4) + (a + d + Fill(0, n - |d|)) + rest
  {
    var x := Fill(0, 4) + a;
    assert Fill(0, 4) + (a + Fill(0, n)) + rest == x + Fill(0, |d|) + (Fill(0, n - |d|) + rest);
    PatchMiddle(x, Fill(0, |d|), Fill(0, n - |d|) + rest, d);
  }

  // All fields but the checksum, in address order.
  lemma FieldsWritten(bintype: byte, v: Version, text: seq<byte>, n: nat, next: byte, rest: seq<byte>)
    requires |text| <= 214
    ensures var s := Patch(Patch(Patch(Patch(Fill(0, HDR) + rest, 4, [0x58, 0x47, 0x5A, bintype]), 8, Le(n, 4)), 12,
            [next]), 32, Back(v, text));
            s == Fill(0, 4) + Fields(bintype, n, next, v, text) + rest
  {
    hide Patch, Le, Back;
    var m := [0x58, 0x47, 0x5A, bintype];
    assert Fill(0, HDR) + rest == Fill(0, 4) + ([] + Fill(0, 252)) + rest;
    Field([], m, 252, rest);
    assert [] + m + Fill(0, 248) == m + Fill(0, 248);
    Field(m, Le(n, 4), 248, rest);
    Field(m + Le(n, 4), [next], 244, rest);
    assert m + Le(n, 4) + [next] + Fill(0, 243) == Front(bintype, n, next) + Fill(0, 224);
    Field(Front(bintype, n, next), Back(v, text), 224, rest);
  }

  lemma BodyIs(mem: seq<byte>, f: seq<byte>, rest: seq<byte>, n: nat)
    requires mem == Fill(0, 4) + f + rest && n <= |rest| && |f| == 252
    ensures mem[4..HDR + n] == f + rest[..n]
  {
  }

  lemma SetupDone(mem: seq<byte>, f: seq<byte>, rest: seq<byte>, n: nat, crc: Reg)
    requires n <= |rest| && mem == Patch(Fill(0, 4) + f + rest, 0, CrcBytes(crc))
    ensures mem == CrcBytes(crc) + (f + rest[..n]) + rest[n..]
  {
    hide CrcBytes, Patch, Fill;
    GroupedFront(Fill(0, 4), f, rest);
    PatchMiddle([], Fill(0, 4), f + rest, CrcBytes(crc));
    GroupedBack(CrcBytes(crc), f, rest, n);
  }

  lemma GroupedFront(a: seq<byte>, f: seq<byte>, rest: seq<byte>)
    ensures a + f + rest == [] + a + (f + rest)
  {
  }

  lemma GroupedBack(c: seq<byte>, f: seq<byte>, rest: seq<byte>, n: nat)
    requires n <= |rest|
    ensures [] + c + (f + rest) == c + (f + rest[..n]) + rest[n..]
  {
    assert rest == rest[..n] + rest[n..];
  }

  lemma BuiltIs(bintype: byte, next: byte, v: Version, text: seq<byte>, payload: seq<byte>)
    requires |text| <= 214
    ensures var body := Fields(bintype, |payload|, next, v, text) + payload;
            Built(bintype, next, v, text, payload) == CrcBytes(Crc(body, Ones())) + body
  {
  }
}
