// The SPI flash device and its driver, loader/src/spiflash.c.
module Flash {
  import opened Bits

  const CAP: nat := 0x1000000      // 24-bit addresses
  const PAGE: nat := 256
  const SECTOR: nat := 4096

  const ERR_PROG_ERROR: nat := 128

  const RDSR: byte := 0x05
  const WREN: byte := 0x06
  const FAST_READ: byte := 0x0B
  const PP: byte := 0x02
  const SE: byte := 0x20

  // ---- the memory array ----

  // Bitwise and of the low n bits.
  function AndBits(a: nat, b: nat, n: nat): nat
  {
    if n == 0 then 0 else (if a % 2 == 1 && b % 2 == 1 then 1 else 0) + 2 * AndBits(a / 2, b / 2, n - 1)
  }

  lemma {:induction false} AndBitsLaws(a: nat, b: nat, n: nat)
    requires b < Pow2(n)
    ensures AndBits(a, b, n) < Pow2(n)
    ensures AndBits(Pow2(n) - 1, b, n) == b && AndBits(0, b, n) == 0 && AndBits(a, 0, n) == 0
  {
    if n > 0 {
      AndBitsLaws(a / 2, b / 2, n - 1);
      assert (Pow2(n) - 1) % 2 == 1 && (Pow2(n) - 1) / 2 == Pow2(n - 1) - 1;
    }
  }

  function And(a: byte, b: byte): byte
  {
    AndLaws(a, b);
    AndBits(a, b, 8)
  }

  lemma AndLaws(a: byte, b: byte)
    ensures AndBits(a, b, 8) < 256 && AndBits(0xFF, b, 8) == b && AndBits(0, b, 8) == 0 && AndBits(a, 0, 8) == 0
  {
    SmallPowers();
    AndBitsLaws(a, b, 8);
  }

  type Array = m: seq<byte> | |m| == CAP witness seq(CAP, _ => 0xFF)

  // Where byte i of a program command goes: addresses wrap inside the page.
  function Target(a: nat, i: nat): nat
    requires a < CAP
  {
    a / PAGE * PAGE + (a + i) % PAGE
  }

  lemma TargetRange(a: nat, i: nat)
    requires a < CAP
    ensures Target(a, i) < CAP && Target(a, i) / PAGE == a / PAGE
    ensures a % PAGE + i < PAGE ==> Target(a, i) == a + i
  {
  }

  // Programming clears bits, byte after byte.
  function Programmed(m: Array, a: nat, d: seq<byte>): Array
    requires a < CAP
  {
    if d == [] then m
    else
      var n := |d| - 1;
      TargetRange(a, n);
      var m' := Programmed(m, a, d[..n]);
      m'[Target(a, n) := And(m'[Target(a, n)], d[n])]
  }

  // A program command with more than a page of data keeps the last 256 bytes.
  function Latched(a: nat, d: seq<byte>): (nat, seq<byte>)
    requires a < CAP
    ensures Latched(a, d).0 < CAP
  {
    if |d| <= PAGE then (a, d)
    else
      TargetRange(a, |d| - PAGE);
      (Target(a, |d| - PAGE), d[|d| - PAGE..])
  }

  function Erased(m: Array, a: nat): Array
    requires a < CAP
  {
    var b := a / SECTOR * SECTOR;
    m[..b] + seq(SECTOR, _ => 0xFF) + m[b + SECTOR..]
  }

  // ---- the device ----

  // polls: how many more times the status will be read with WIP set.
  datatype Chip = Chip(mem: Array, wel: bool, polls: nat)

  // The 24-bit address behind an opcode.
  function Addr(f: seq<byte>): (a: nat)
    requires |f| >= 4
    ensures a < CAP
  {
    f[1] as int * 0x10000 + f[2] as int * 0x100 + f[3] as int
  }

  function Status(c: Chip): byte { (if c.polls > 0 then 1 else 0) + (if c.wel then 2 else 0) }

  // What the device answers while the last byte of f comes in, f being all since chip select.
  function Response(c: Chip, f: seq<byte>): byte
  {
    if |f| >= 2 && f[0] == RDSR then Status(c)
    else if |f| >= 6 && f[0] == FAST_READ && c.polls == 0 then c.mem[(Addr(f) + (|f| - 6)) % CAP]
    else 0xFF
  }

  // A program or erase command that comes while busy or not write-enabled.
  predicate Misplaced(c: Chip, f: seq<byte>)
  {
    |f| >= 4 && (f[0] == PP || f[0] == SE) && (c.polls > 0 || !c.wel)
  }

  // What the device does at the end of a command; t is how long it will be busy.
  function Effect(c: Chip, f: seq<byte>, t: nat): Chip
  {
    if f == [] then c
    else if f[0] == RDSR then c.(polls := if c.polls > 0 then c.polls - 1 else 0)
    else if c.polls > 0 then c
    else if f == [WREN] then c.(wel := true)
    else if |f| >= 5 && f[0] == PP && c.wel then
      var (a, d) := Latched(Addr(f), f[4..]);
      Chip(Programmed(c.mem, a, d), false, t)
    else if |f| == 4 && f[0] == SE && c.wel then Chip(Erased(c.mem, Addr(f)), false, t)
    else c
  }

  class Device {
    var chip: Chip
    var frame: seq<byte>          // bytes since chip select
    ghost var misplaced: nat      // program and erase commands that came at the wrong time

    constructor (chip: Chip)
      ensures this.chip == chip && frame == [] && misplaced == 0
    {
      this.chip, frame, misplaced := chip, [], 0;
    }

    // Spi_Flash_Buffer_Transmit_Receive: one byte each way; eof releases chip select.
    method Exchange(tx: byte, eof: bool) returns (rx: byte, ghost t: nat)
      modifies this
      ensures rx == Response(old(chip), old(frame) + [tx])
      ensures !eof ==> frame == old(frame) + [tx] && chip == old(chip) && misplaced == old(misplaced)
      ensures eof ==> frame == [] && chip == Effect(old(chip), old(frame) + [tx], t)
      ensures eof ==> misplaced == old(misplaced) + if Misplaced(old(chip), old(frame) + [tx]) then 1 else 0
    {
      frame := frame + [tx];
      rx := Response(chip, frame);
      t := 0;
      if eof {
        var busy: nat := *;
        t := busy;
        if Misplaced(chip, frame) { misplaced := misplaced + 1; }
        chip := Effect(chip, frame, busy);
        frame := [];
      }
    }
  }

  // ---- the driver ----

  function Bytes24(a: nat): seq<byte> { [a / 0x10000 % 256, a / 0x100 % 256, a % 256] }

  lemma AddrOf(op: byte, a: nat, rest: seq<byte>)
    ensures |Bytes24(a)| == 3 && Addr([op] + Bytes24(a) + rest) == a % CAP
  {
    var f := [op] + Bytes24(a) + rest;
    assert f[1] == Bytes24(a)[0] && f[2] == Bytes24(a)[1] && f[3] == Bytes24(a)[2];
    Recombine(a);
  }

  lemma Recombine(a: nat)
    ensures (a / 0x10000 % 256) * 0x10000 + (a / 0x100 % 256) * 0x100 + a % 256 == a % CAP
  {
    var q := a / 0x100;
    var u := q / 0x100;
    assert a / 0x10000 == u;
    assert a == u / 0x100 * CAP + (u % 0x100 * 0x10000 + q % 0x100 * 0x100 + a % 0x100);
    ModUnique(a, u / 0x100, u % 0x100 * 0x10000 + q % 0x100 * 0x100 + a % 0x100);
  }

  lemma ModUnique(a: nat, k: nat, r: nat)
    requires a == k * CAP + r && r < CAP
    ensures a % CAP == r
  {
  }

  // n bytes from address a, rolling over at the end of the device.
  function Bytes(m: Array, a: nat, n: nat): seq<byte> { seq(n, i requires 0 <= i => m[(a + i) % CAP]) }

  class Driver {
    const dev: Device

    constructor (dev: Device)
      ensures this.dev == dev
    {
      this.dev := dev;
    }

    // Spi_Flash_Read_Status_Register
    method ReadStatus() returns (s: byte)
      requires dev.frame == []
      modifies dev
      ensures dev.frame == [] && dev.misplaced == old(dev.misplaced) && s == Status(old(dev.chip))
      ensures dev.chip == old(dev.chip).(polls := dev.chip.polls)
      ensures dev.chip.polls == if old(dev.chip).polls > 0 then old(dev.chip).polls - 1 else 0
    {
      var _, _ := dev.Exchange(RDSR, false);
      var rx, _ := dev.Exchange(0xFF, true);
      s := rx;
    }

    // while (!Spi_Flash_Is_Flash_Ready(...));
    method WaitReady()
      requires dev.frame == []
      modifies dev
      ensures dev.frame == [] && dev.misplaced == old(dev.misplaced)
      ensures dev.chip == old(dev.chip).(polls := 0)
    {
      var s := ReadStatus();
      while s % 2 == 1
        invariant dev.frame == [] && dev.misplaced == old(dev.misplaced)
        invariant dev.chip == old(dev.chip).(polls := dev.chip.polls)
        invariant s % 2 == 0 ==> dev.chip.polls == 0
        decreases s % 2, dev.chip.polls
      {
        s := ReadStatus();
      }
    }

    // Spi_Flash_Set_Write_Enable
    method SetWriteEnable() returns (ok: bool)
      requires dev.frame == []
      modifies dev
      ensures ok && dev.frame == [] && dev.misplaced == old(dev.misplaced)
      ensures dev.chip == Chip(old(dev.chip).mem, true, 0)
    {
      WaitReady();
      var _, _ := dev.Exchange(WREN, true);
      var s := ReadStatus();
      ok := s / 2 % 2 == 1;
    }

    // The opcode and the 24-bit address, chip select staying down.
    method Begin(op: byte, address: nat)
      requires dev.frame == []
      modifies dev
      ensures dev.frame == [op] + Bytes24(address) && dev.chip == old(dev.chip) && dev.misplaced == old(dev.misplaced)
    {
      var _, _ := dev.Exchange(op, false);
      var _, _ := dev.Exchange(address / 0x10000 % 256, false);
      var _, _ := dev.Exchange(address / 0x100 % 256, false);
      var _, _ := dev.Exchange(address % 256, false);
    }

    // Spi_Flash_Sector_Erase
    method SectorErase(address: nat) returns (ok: bool)
      requires dev.frame == []
      modifies dev
      ensures ok && dev.frame == [] && dev.misplaced == old(dev.misplaced)
      ensures dev.chip.mem == Erased(old(dev.chip).mem, address % CAP) && !dev.chip.wel
    {
      hide Erased;
      ok := SetWriteEnable();
      if !ok { return false; }
      var _, _ := dev.Exchange(SE, false);
      var _, _ := dev.Exchange(address / 0x10000 % 256, false);
      var _, _ := dev.Exchange(address / 0x100 % 256, false);
      AddrOf(SE, address, []);
      assert [SE] + Bytes24(address) + [] == [SE, address / 0x10000 % 256, address / 0x100 % 256] + [address % 256];
      var _, _ := dev.Exchange(address % 256, true);
      return true;
    }

    // spi_flash_erase: the sectors from first to last read as 0xFF, all others are untouched.
    method Erase(first: nat, last: int) returns (r: nat)
      requires dev.frame == [] && (last + 1) * SECTOR <= CAP
      modifies dev
      ensures r == 0 && dev.frame == [] && dev.misplaced == old(dev.misplaced)
      ensures forall p :: 0 <= p < CAP ==>
                dev.chip.mem[p] == if first * SECTOR <= p < (last + 1) * SECTOR then 0xFF else old(dev.chip.mem)[p]
    {
      hide Erased;
      ghost var m := dev.chip.mem;
      var sect := first;
      while sect <= last
        invariant first <= sect && (first <= last ==> sect <= last + 1) && (first > last ==> sect == first)
        invariant dev.frame == [] && dev.misplaced == old(dev.misplaced)
        invariant forall p :: 0 <= p < CAP ==> dev.chip.mem[p] == if first * SECTOR <= p < sect * SECTOR then 0xFF
                  else m[p]
      {
        ghost var was := dev.chip.mem;
        var ok := SectorErase(sect * SECTOR);
        if !ok { return ERR_PROG_ERROR; }
        forall p | 0 <= p < CAP
          ensures dev.chip.mem[p] == if first * SECTOR <= p < (sect + 1) * SECTOR then 0xFF else m[p]
        {
          ErasedAt(was, sect, p);
        }
        sect := sect + 1;
      }
      return 0;
    }

    // Spi_Flash_Read_Data_Bytes (read_flash)
    method ReadFlash(address: nat, len: nat) returns (buf: seq<byte>)
      requires dev.frame == [] && len >= 1
      modifies dev
      ensures dev.frame == [] && dev.misplaced == old(dev.misplaced) && dev.chip == old(dev.chip).(polls := 0)
      ensures buf == Bytes(dev.chip.mem, address % CAP, len)
    {
      hide Bytes24;
      WaitReady();
      ghost var c := dev.chip;
      AddrOf(FAST_READ, address, []);
      Begin(FAST_READ, address);
      var _, _ := dev.Exchange(address % 256, false);    // dummy
      buf := [];
      var ii := 0;
      ghost var h := [FAST_READ] + Bytes24(address) + [address % 256];
      while ii < len - 1
        invariant 0 <= ii <= len - 1 && |dev.frame| == 5 + ii && dev.frame[..5] == h
        invariant dev.chip == c && dev.misplaced == old(dev.misplaced)
        invariant buf == Bytes(c.mem, address % CAP, ii)
      {
        ReadByte(c, dev.frame + [0xFF], address);
        var rx, _ := dev.Exchange(0xFF, false);
        buf := buf + [rx];
        ii := ii + 1;
      }
      ReadByte(c, dev.frame + [0xFF], address);
      var rx, _ := dev.Exchange(0xFF, true);
      buf := buf + [rx];
    }

    // Spi_Flash_Page_Program_Data_Bytes
    method PageProgram(address: nat, data: seq<byte>) returns (ok: bool)
      requires dev.frame == [] && 1 <= |data| <= PAGE
      modifies dev
      ensures ok && dev.frame == [] && dev.misplaced == old(dev.misplaced)
      ensures dev.chip.mem == Programmed(old(dev.chip).mem, address % CAP, data) && !dev.chip.wel
    {
      hide Programmed;
      ok := SetWriteEnable();
      if !ok { return false; }
      ghost var c := dev.chip;
      Begin(PP, address);
      var ii := 0;
      ghost var h := [PP] + Bytes24(address);
      while ii < |data| - 1
        invariant 0 <= ii <= |data| - 1 && dev.frame == h + data[..ii]
        invariant dev.chip == c && dev.misplaced == old(dev.misplaced)
      {
        var _, _ := dev.Exchange(data[ii], false);
        ii := ii + 1;
      }
      AddrOf(PP, address, data);
      assert dev.frame + [data[ii]] == h + data;
      assert (h + data)[4..] == data;
      var _, _ := dev.Exchange(data[ii], true);
      return true;
    }

    // write_buff
    method WriteBuff(src: seq<byte>, addr: nat) returns (r: nat)
      requires dev.frame == []
      modifies dev
      ensures r == 0 && dev.frame == [] && dev.misplaced == old(dev.misplaced)
      ensures dev.chip.mem == Written(old(dev.chip).mem, addr, src)
    {
      hide Programmed;
      ghost var m := dev.chip.mem;
      var left: nat, total: nat, size: nat := |src|, 0, PAGE;
      assert src[0..] == src;
      while left > 0
        invariant left > 0 ==> size == PAGE
        invariant total + left == |src| && dev.frame == [] && dev.misplaced == old(dev.misplaced)
        invariant Written(dev.chip.mem, addr + total, src[total..]) == Written(m, addr, src)
        decreases left
      {
        if left <= size { size := left; }
        var ok := PageProgram(addr + total, src[total..total + size]);
        if !ok { return ERR_PROG_ERROR; }
        assert src[total..][..size] == src[total..total + size];
        assert src[total..][size..] == src[total + size..];
        left := left - size;
        total := total + size;
      }
      assert src[total..] == [];
      return 0;
    }
  }

  lemma ErasedAt(m: Array, sect: nat, p: nat)
    requires (sect + 1) * SECTOR <= CAP && p < CAP
    ensures sect * SECTOR % CAP == sect * SECTOR
    ensures Erased(m, sect * SECTOR)[p] == if sect * SECTOR <= p < (sect + 1) * SECTOR then 0xFF else m[p]
  {
    assert sect * SECTOR / SECTOR == sect;
  }

  lemma ReadByte(c: Chip, f: seq<byte>, address: nat)
    requires c.polls == 0 && |f| >= 6 && f[..5] == [FAST_READ] + Bytes24(address) + [address % 256]
    ensures Response(c, f) == c.mem[(address % CAP + (|f| - 6)) % CAP]
    ensures forall t: nat :: Effect(c, f, t) == c
    ensures !Misplaced(c, f)
  {
    AddrOf(FAST_READ, address, [address % 256]);
    assert f[0] == f[..5][0] && f[1] == f[..5][1] && f[2] == f[..5][2] && f[3] == f[..5][3];
  }

  // What write_buff leaves in memory: a page-sized piece at a time.
  function Written(m: Array, a: nat, s: seq<byte>): Array
    decreases |s|
  {
    if s == [] then m
    else
      var n := if |s| <= PAGE then |s| else PAGE;
      Written(Programmed(m, a % CAP, s[..n]), a + n, s[n..])
  }

  // ---- what write_buff promises ----

  lemma {:induction false} ProgrammedAt(m: Array, a: nat, d: seq<byte>, p: nat)
    requires a < CAP && a % PAGE + |d| <= PAGE && p < CAP
    ensures Programmed(m, a, d)[p] == if a <= p < a + |d| then And(m[p], d[p - a]) else m[p]
  {
    hide And;
    if d != [] {
      var n := |d| - 1;
      TargetRange(a, n);
      ProgrammedAt(m, a, d[..n], p);
      if p == a + n { ProgrammedAt(m, a, d[..n], a + n); }
    }
  }

  // No piece of the data crosses a page boundary.
  predicate NoWrap(a: nat, n: nat) { a % PAGE == 0 || a % PAGE + n <= PAGE }

  // Addresses are taken modulo the device; data must not run over its end.
  lemma {:induction false} WrittenAt(m: Array, a: nat, s: seq<byte>, p: nat)
    requires NoWrap(a, |s|) && a % CAP + |s| <= CAP && p < CAP
    ensures var b := a % CAP;
            Written(m, a, s)[p] == if b <= p < b + |s| then And(m[p], s[p - b]) else m[p]
    decreases |s|
  {
    hide And, Programmed;
    if s != [] {
      var n := if |s| <= PAGE then |s| else PAGE;
      var b := a % CAP;
      SamePage(a);
      ProgrammedAt(m, b, s[..n], p);
      if n < |s| {
        Advance(a, n);
        WrittenAt(Programmed(m, b, s[..n]), a + n, s[n..], p);
      } else {
        assert s[n..] == [];
      }
    }
  }

  lemma SamePage(a: nat)
    ensures a % CAP % PAGE == a % PAGE
  {
  }

  lemma Advance(a: nat, n: nat)
    requires a % CAP + n < CAP
    ensures (a + n) % CAP == a % CAP + n && (a % PAGE == 0 && n == PAGE ==> (a + n) % PAGE == 0)
  {
    var q, r := a / CAP, a % CAP;
    DivMod(a);
    ModUnique(a + n, q, r + n);
    NextPage(a, n);
  }

  lemma DivMod(a: nat)
    ensures a == a / CAP * CAP + a % CAP
  {
  }

  lemma NextPage(a: nat, n: nat)
    ensures a % PAGE == 0 && n == PAGE ==> (a + n) % PAGE == 0
  {
  }

  ghost predicate Blank(m: Array, a: nat, n: nat)
  {
    forall p :: a <= p < a + n && p < CAP ==> m[p] == 0xFF
  }

  // Exactly s at a, and nothing else changed.
  ghost predicate Stored(m: Array, m': Array, a: nat, s: seq<byte>)
  {
    forall p :: 0 <= p < CAP ==> m'[p] == if a <= p < a + |s| then s[p - a] else m[p]
  }

  // Writing to an erased region stores the source bytes and changes nothing else.
  lemma WriteStores(m: Array, a: nat, s: seq<byte>)
    requires NoWrap(a, |s|) && a % CAP + |s| <= CAP && Blank(m, a % CAP, |s|)
    ensures Stored(m, Written(m, a, s), a % CAP, s)
  {
    hide Written;
    forall p | 0 <= p < CAP
      ensures Written(m, a, s)[p] == if a % CAP <= p < a % CAP + |s| then s[p - a % CAP] else m[p]
    {
      WrittenAt(m, a, s, p);
      if a % CAP <= p < a % CAP + |s| { AndLaws(m[p], s[p - a % CAP]); }
    }
  }

  // write_buff and then read_flash give the source bytes back.
  lemma WriteThenRead(m: Array, a: nat, s: seq<byte>)
    requires NoWrap(a, |s|) && a % CAP + |s| <= CAP && Blank(m, a % CAP, |s|)
    ensures Bytes(Written(m, a, s), a % CAP, |s|) == s
  {
    hide Written;
    WriteStores(m, a, s);
    var m', b := Written(m, a, s), a % CAP;
    forall i | 0 <= i < |s| ensures Bytes(m', b, |s|)[i] == s[i] {
      assert (b + i) % CAP == b + i;
      assert m'[b + i] == s[i];
    }
  }

  // A cleared bit stays cleared.
  lemma {:induction false} ZeroStays(m: Array, a: nat, d: seq<byte>, p: nat)
    requires a < CAP && p < CAP && m[p] == 0
    ensures Programmed(m, a, d)[p] == 0
  {
    hide And;
    if d != [] {
      ZeroStays(m, a, d[..|d| - 1], p);
      TargetRange(a, |d| - 1);
      AndZero(d[|d| - 1]);
    }
  }

  lemma AndZero(b: byte)
    ensures And(0, b) == 0 && And(b, 0) == 0
  {
    AndLaws(0, b);
    AndLaws(b, 0);
  }

  lemma {:induction false} ZeroStaysWritten(m: Array, a: nat, s: seq<byte>, p: nat)
    requires p < CAP && m[p] == 0
    ensures Written(m, a, s)[p] == 0
    decreases |s|
  {
    hide Programmed;
    if s != [] {
      var n := if |s| <= PAGE then |s| else PAGE;
      ZeroStays(m, a % CAP, s[..n], p);
      ZeroStaysWritten(Programmed(m, a % CAP, s[..n]), a + n, s[n..], p);
    }
  }

  lemma {:induction false} ZeroLands(m: Array, a: nat, d: seq<byte>, i: nat)
    requires a < CAP && i < |d| && d[i] == 0
    ensures Target(a, i) < CAP && Programmed(m, a, d)[Target(a, i)] == 0
  {
    hide And;
    var n := |d| - 1;
    TargetRange(a, i);
    TargetRange(a, n);
    if i < n {
      ZeroLands(m, a, d[..n], i);
      AndZero(d[n]);
    } else {
      AndZero(Programmed(m, a, d[..n])[Target(a, n)]);
    }
  }

  // Data that cross a page boundary from the middle of a page land in front of their start.
  lemma WrapDamages(m: Array, a: nat, s: seq<byte>)
    requires a < CAP && !NoWrap(a, |s|) && (forall i :: 0 <= i < |s| ==> s[i] == 0)
    ensures a / PAGE * PAGE < a && Written(m, a, s)[a / PAGE * PAGE] == 0
  {
    hide Programmed;
    var n := if |s| <= PAGE then |s| else PAGE;
    var i := PAGE - a % PAGE;
    WrapTarget(a, i);
    ZeroLands(m, a, s[..n], i);
    ZeroStaysWritten(Programmed(m, a, s[..n]), a + n, s[n..], a / PAGE * PAGE);
  }

  lemma WrapTarget(a: nat, i: nat)
    requires a < CAP && a % PAGE != 0 && i == PAGE - a % PAGE
    ensures Target(a, i) == a / PAGE * PAGE < a
  {
    assert (a + i) % PAGE == 0;
  }

  // write_buff is exact on every erased region and for all data if and only if the data
  // start on a page or stay inside one.
  lemma ExactIffNoWrap(a: nat, n: nat)
    requires a + n <= CAP && n > 0
    ensures NoWrap(a, n) <==>
            forall m: Array, s: seq<byte> :: |s| == n && Blank(m, a, n) ==> Stored(m, Written(m, a, s), a, s)
  {
    hide Written, Stored;
    if NoWrap(a, n) {
      forall m: Array, s: seq<byte> | |s| == n && Blank(m, a, n) ensures Stored(m, Written(m, a, s), a, s) {
        assert a % CAP == a;
        WriteStores(m, a, s);
      }
    } else {
      var m: Array, s: seq<byte> := seq(CAP, _ => 0xFF), seq(n, _ => 0);
      WrapDamages(m, a, s);
      if Stored(m, Written(m, a, s), a, s) { StoredOutside(m, Written(m, a, s), a, s, a / PAGE * PAGE); }
      assert Blank(m, a, n);
    }
  }

  lemma StoredOutside(m: Array, m': Array, a: nat, s: seq<byte>, p: nat)
    requires Stored(m, m', a, s) && p < a && p < CAP
    ensures m'[p] == m[p]
  {
  }
}
