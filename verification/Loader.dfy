// loader/src/loader.c: check the firmware in flash, copy it to SDRAM and decompress it.
module Loader {
  import opened Bits
  import opened HuftStore
  import opened Deflate
  import opened Window
  import opened Gzip
  import opened RamMemory
  import opened Image
  import F = Flash
  import M = ImageMaker

  const FLASH_START: nat := 0x30000000
  const SDRAM_START: int := 0x20000000
  const COPY_START: int := 0x20550000     // ZOT716U2_SDRAM_COPY_START
  const CODE1_OFF: nat := 0x10000
  const CODE2_OFF: nat := 0x30000
  const CODE1_LIMIT: nat := 0xB0000
  const CODE2_LIMIT: nat := 0xC0000

  lemma Offsets(off: nat, i: nat)
    requires off + i < F.CAP
    ensures (FLASH_START + off + i) % F.CAP == off + i
  {
  }

  lemma BytesInside(m: F.Array, a: nat, n: nat)
    requires a + n <= F.CAP
    ensures F.Bytes(m, a, n) == m[a..a + n]
  {
    forall i | 0 <= i < n ensures F.Bytes(m, a, n)[i] == m[a + i] { assert (a + i) % F.CAP == a + i; }
  }

  // What a checksum function answers about the image at off: its length, 0 when it is refused.
  function CheckedLength(m: F.Array, off: nat, limit: nat): (n: nat)
    requires off + HDR + limit <= F.CAP
    ensures n <= limit
  {
    if Accepts(m, off, limit) then Unle(m[off + 8..off + 12]) else 0
  }

  lemma CheckedCases(m: F.Array, off: nat, limit: nat)
    requires off + HDR + limit <= F.CAP
    ensures var n := Unle(m[off + 8..off + 12]);
            && (n > limit ==> CheckedLength(m, off, limit) == 0)
            && (n <= limit ==>
                  var img := m[off..off + n + HDR];
                  FileLen(img) == n && CheckedLength(m, off, limit) == if Sound(img) then n else 0)
  {
    hide Sound, Unle;
    var n := Unle(m[off + 8..off + 12]);
    if n <= limit { SliceOfSlice(m, off, off + n + HDR, 8, 12); }
  }

  // Memory is as before outside the area images are copied to.
  ghost predicate OnlyCopy(m: map<int, byte>, m': map<int, byte>)
  {
    forall a :: !(COPY_START <= a < COPY_START + HDR + CODE2_LIMIT) ==>
        (a in m <==> a in m') && (a in m ==> m'[a] == m[a])
  }

  lemma CopyPlaced(m: map<int, byte>, copy: seq<byte>)
    requires |copy| <= HDR + CODE2_LIMIT
    ensures var m' := Written(m, COPY_START, copy); OnlyCopy(m, m') && Sits(m', COPY_START, copy)
  {
    hide Written;
    var m' := Written(m, COPY_START, copy);
    forall a ensures !(COPY_START <= a < COPY_START + HDR + CODE2_LIMIT) ==>
        (a in m <==> a in m') && (a in m ==> m'[a] == m[a]) {
      WrittenAt(m, COPY_START, copy, a);
    }
    forall a | COPY_START <= a < COPY_START + |copy| ensures a in m' && m'[a] == copy[a - COPY_START] {
      WrittenAt(m, COPY_START, copy, a);
    }
  }

  // ZOT716U2CODE2Checksum and ZOT716U2CODE1Checksum, which differ in off and limit: the
  // accepted image is in SDRAM.
  method CodeChecksum(drv: F.Driver, mem: Ram, off: nat, limit: nat) returns (r: nat)
    requires drv.dev.frame == [] && off + HDR + limit <= F.CAP && limit <= CODE2_LIMIT
    modifies drv.dev, mem
    ensures drv.dev.frame == [] && drv.dev.chip.mem == old(drv.dev.chip.mem)
    ensures r == CheckedLength(drv.dev.chip.mem, off, limit)
    ensures OnlyCopy(old(mem.bytes), mem.bytes)
    ensures r > 0 ==> Sits(mem.bytes, COPY_START, drv.dev.chip.mem[off..off + HDR + r])
  {
    hide Sound, Unle, F.Bytes, Accepts, CheckedLength, FileLen, Written, Sits;
    ghost var m := drv.dev.chip.mem;
    CheckedCases(m, off, limit);
    Offsets(off, 8);
    Offsets(off, 0);
    BytesInside(m, off + 8, 4);
    var lengthOrg := drv.ReadFlash(FLASH_START + off + 8, 4);
    var length := NGet32(lengthOrg);
    if length > limit { return 0; }
    BytesInside(m, off, length + HDR);
    var copy := drv.ReadFlash(FLASH_START + off, length + HDR);
    CopyPlaced(mem.bytes, copy);
    mem.bytes := Written(mem.bytes, COPY_START, copy);
    r := CheckCopy(copy, limit);
  }

  // An image the maker builds and write_buff puts into an erased area is accepted.
  lemma WrittenImageAccepted(m: F.Array, off: nat, limit: nat, bintype: byte, v: M.Version, text: seq<byte>,
                             payload: seq<byte>)
    requires |text| <= 214 && 0 < |payload| <= limit <= 0xC0000 && off + HDR + limit <= F.CAP && off % F.PAGE == 0
    requires F.Blank(m, off, HDR + |payload|)
    ensures var m' := F.Written(m, FLASH_START + off, M.Built(bintype, 0, v, text, payload));
            CheckedLength(m', off, limit) == |payload| && m'[off + HDR..off + HDR + |payload|] == payload
  {
    hide Sound, Unle, F.Written, M.Built, Accepts;
    var img := M.Built(bintype, 0, v, text, payload);
    var m' := F.Written(m, FLASH_START + off, img);
    Offsets(off, 0);
    F.WriteThenRead(m, FLASH_START + off, img);
    BytesInside(m', off, |img|);
    M.SinglePassesCheck(bintype, v, text, payload, m', off, limit);
    M.BuiltSound(bintype, 0, v, text, payload);
    SliceOfSlice(m', off, off + |img|, HDR, |img|);
  }

  // ---- booting ----

  // The output starts 0x550100 bytes below the payload of the copied image.
  const GAP: nat := 0x550100

  // Output stays clear of the compressed copy exactly when it is not longer than that.
  lemma OutputRoom(n: nat, len: nat)
    requires len > 0
    ensures Apart(SDRAM_START, n, COPY_START + HDR, len) <==> n <= GAP
  {
  }

  // A member that inflates to no more than that decompresses, whatever it holds.
  lemma SmallDecompressible(z: seq<byte>, lim: nat)
    requires lim + 24 <= 8 * |z| && SkipHeader(z).Body? && 8 * SkipHeader(z).at <= lim
    requires Payload(z, SkipHeader(z).at, lim) != OffSpec && |Payload(z, SkipHeader(z).at, lim).out| <= GAP
    ensures Decompressible(z, COPY_START + HDR, SDRAM_START, lim)
  {
    hide SkipHeader, Payload, Apart, Decompressible;
    OutputRoom(|Payload(z, SkipHeader(z).at, lim).out|, |z|);
    ClearDecompressible(z, COPY_START + HDR, SDRAM_START, lim);
  }

  // What decompressing z comes to: gz is the result, 3 standing for a heap that is too small.
  ghost predicate Loaded(z: seq<byte>, lim: nat, gz: nat, ram: map<int, byte>, ram': map<int, byte>)
    requires lim <= 8 * |z| && SkipHeader(z) != Short
  {
    if SkipHeader(z) == Refused then gz == 1 && ram' == ram
    else
      var R := Payload(z, SkipHeader(z).at, lim);
      || gz == 3
      || (R.Done? && gz == 0 && ram' == Written(ram, SDRAM_START, R.out))
      || ((R.BadTables? || R.BadData?) && gz == R.code)
  }

  function Area(m: F.Array, off: nat, n: nat): seq<byte>
    requires off + HDR + n <= F.CAP
  {
    m[off + HDR..off + HDR + n]
  }

  lemma AreaSits(ram: map<int, byte>, m: F.Array, off: nat, n: nat)
    requires off + HDR + n <= F.CAP && Sits(ram, COPY_START, m[off..off + HDR + n])
    ensures Sits(ram, COPY_START + HDR, Area(m, off, n))
  {
    var img, z := m[off..off + HDR + n], Area(m, off, n);
    forall p | COPY_START + HDR <= p < COPY_START + HDR + n ensures p in ram && ram[p] == z[p - COPY_START - HDR] {
      assert ram[p] == img[p - COPY_START];
    }
  }

  // loader.c:344-390 without the lights: Code2 if it checks, else Code1, else nothing.  ram is
  // the memory when decompression starts, gz its result.
  method Boot(drv: F.Driver, mem: Ram, window: array<byte>, store: Store, ghost lim: nat)
    returns (started: bool, gz: nat, ghost ram: map<int, byte>)
    requires drv.dev.frame == [] && window.Length == WSIZE && store.Valid()
    requires var m := drv.dev.chip.mem;
             var n2, n1 := CheckedLength(m, CODE2_OFF, CODE2_LIMIT), CheckedLength(m, CODE1_OFF, CODE1_LIMIT);
             && (n2 > 0 ==> Decompressible(Area(m, CODE2_OFF, n2), COPY_START + HDR, SDRAM_START, lim))
             && (n2 == 0 && n1 > 0 ==> Decompressible(Area(m, CODE1_OFF, n1), COPY_START + HDR, SDRAM_START, lim))
    modifies drv.dev, mem, window, store, store.heap
    ensures var m := old(drv.dev.chip.mem);
            var n2, n1 := CheckedLength(m, CODE2_OFF, CODE2_LIMIT), CheckedLength(m, CODE1_OFF, CODE1_LIMIT);
            && drv.dev.chip.mem == m && OnlyCopy(old(mem.bytes), ram)
            && (started <==> n2 > 0 || n1 > 0)
            && (!started ==> mem.bytes == ram)
            && (n2 > 0 ==> Loaded(Area(m, CODE2_OFF, n2), lim, gz, ram, mem.bytes))
            && (n2 == 0 && n1 > 0 ==> Loaded(Area(m, CODE1_OFF, n1), lim, gz, ram, mem.bytes))
            && store.heap.refusals == old(store.heap.refusals) + if gz == 3 then 1 else 0
  {
    hide CheckedLength, SkipHeader, Payload, Area, Written, Sits, Apart;
    ghost var m := drv.dev.chip.mem;
    var n := CodeChecksum(drv, mem, CODE2_OFF, CODE2_LIMIT);
    ram := mem.bytes;
    started, gz := false, 0;
    if n > 0 {
      AreaSits(ram, m, CODE2_OFF, n);
      var r, _ := GzDecompress(mem, COPY_START + HDR, SDRAM_START, window, store, Area(m, CODE2_OFF, n), lim);
      return true, r, ram;
    }
    n := CodeChecksum(drv, mem, CODE1_OFF, CODE1_LIMIT);
    ram := mem.bytes;
    if n > 0 {
      AreaSits(ram, m, CODE1_OFF, n);
      var r, _ := GzDecompress(mem, COPY_START + HDR, SDRAM_START, window, store, Area(m, CODE1_OFF, n), lim);
      return true, r, ram;
    }
  }
}
