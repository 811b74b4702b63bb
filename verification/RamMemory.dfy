// The memory of the loader: compressed input is read from it while output is written to it.
module RamMemory {
  import opened Bits

  const RAM_START := 0x20004000   // lower addresses are not written (SPI_FLASH)

  class Ram {
    var bytes: map<int, byte>

    constructor (bytes: map<int, byte>)
      ensures this.bytes == bytes
    {
      this.bytes := bytes;
    }
  }

  // Memory after data has been written from base on, leaving addresses below RAM_START alone.
  function Written(m: map<int, byte>, base: int, data: seq<byte>): map<int, byte>
  {
    if data == [] then m
    else
      var n := |data| - 1;
      var m' := Written(m, base, data[..n]);
      if base + n >= RAM_START then m'[base + n := data[n]] else m'
  }

  // Byte i of the data is at base + i wherever that is RAM, and nothing else has changed.
  lemma {:induction false} WrittenAt(m: map<int, byte>, base: int, data: seq<byte>, a: int)
    ensures var m' := Written(m, base, data);
            if base <= a < base + |data| && a >= RAM_START then a in m' && m'[a] == data[a - base]
            else (a in m' <==> a in m) && (a in m ==> m'[a] == m[a])
  {
    if data != [] { WrittenAt(m, base, data[..|data| - 1], a); }
  }

  // z is in memory from address a on.
  ghost predicate Sits(m: map<int, byte>, a: int, z: seq<byte>)
  {
    forall p :: a <= p < a + |z| ==> p in m && m[p] == z[p - a]
  }

  // z is in memory from its byte i on.
  ghost predicate SitsFrom(m: map<int, byte>, a: int, z: seq<byte>, i: nat)
  {
    forall p :: a + i <= p < a + |z| ==> p in m && m[p] == z[p - a]
  }

  lemma SitsFromAt(m: map<int, byte>, a: int, z: seq<byte>, i: nat)
    requires SitsFrom(m, a, z, i) && i < |z|
    ensures a + i in m && m[a + i] == z[i]
  {
  }

  lemma SitsFromLess(m: map<int, byte>, a: int, z: seq<byte>, i: nat, j: nat)
    requires SitsFrom(m, a, z, i) && i <= j
    ensures SitsFrom(m, a, z, j)
  {
  }

  // What has not been read stays where output does not reach it.
  lemma SitsFromStill(m: map<int, byte>, base: int, data: seq<byte>, a: int, z: seq<byte>, i: nat)
    requires Sits(m, a, z) && i <= |z| && Apart(base, |data|, a + i, |z| - i)
    ensures SitsFrom(Written(m, base, data), a, z, i)
  {
    hide Written;
    var m' := Written(m, base, data);
    forall p | a + i <= p < a + |z| ensures p in m' && m'[p] == z[p - a] {
      WrittenAt(m, base, data, p);
    }
  }

  function Floor(base: int): int { if base >= RAM_START then base else RAM_START }

  // Writing n bytes from base on touches none of the len bytes at a.
  predicate Apart(base: int, n: nat, a: int, len: nat)
  {
    len == 0 || base + n <= Floor(base) || base + n <= a || a + len <= Floor(base)
  }

  // Writing less, or over less, is as harmless.
  lemma ApartLess(base: int, n: nat, n': nat, a: int, len: nat, i: nat)
    requires Apart(base, n, a, len) && n' <= n && i <= len
    ensures Apart(base, n', a + i, len - i)
  {
  }

  lemma SitsStill(m: map<int, byte>, base: int, data: seq<byte>, a: int, z: seq<byte>)
    requires Sits(m, a, z) && Apart(base, |data|, a, |z|)
    ensures Sits(Written(m, base, data), a, z)
  {
    hide Written;
    var m' := Written(m, base, data);
    forall p | a <= p < a + |z| ensures p in m' && m'[p] == z[p - a] {
      WrittenAt(m, base, data, p);
    }
  }

  // Whatever is written and whatever the bytes at a are, they stay if and only if the two
  // areas are apart.
  lemma SafeIffApart(base: int, n: nat, a: int, len: nat)
    ensures Apart(base, n, a, len) <==>
            forall m: map<int, byte>, data: seq<byte>, z: seq<byte> ::
              |data| == n && |z| == len && Sits(m, a, z) ==> Sits(Written(m, base, data), a, z)
  {
    hide Written, Sits;
    if Apart(base, n, a, len) {
      forall m: map<int, byte>, data: seq<byte>, z: seq<byte> | |data| == n && |z| == len && Sits(m, a, z)
        ensures Sits(Written(m, base, data), a, z)
      {
        SitsStill(m, base, data, a, z);
      }
    } else {
      var x := if a >= Floor(base) then a else Floor(base);
      var z: seq<byte>, data: seq<byte> := seq(len, _ => 0xFF), seq(n, _ => 0);
      var m := Holding(a, z);
      HoldingSits(a, z);
      WrittenAt(m, base, data, x);
      if Sits(Written(m, base, data), a, z) { SitsAt(Written(m, base, data), a, z, x - a); }
    }
  }

  // A memory that holds just z.
  function Holding(a: int, z: seq<byte>): map<int, byte>
  {
    if z == [] then map[] else Holding(a, z[..|z| - 1])[a + |z| - 1 := z[|z| - 1]]
  }

  lemma {:induction false} HoldingSits(a: int, z: seq<byte>)
    ensures Sits(Holding(a, z), a, z)
  {
    if z != [] {
      var y := z[..|z| - 1];
      HoldingSits(a, y);
    }
  }

  lemma SitsAt(m: map<int, byte>, a: int, z: seq<byte>, i: nat)
    requires Sits(m, a, z) && i < |z|
    ensures a + i in m && m[a + i] == z[i]
  {
  }
}
