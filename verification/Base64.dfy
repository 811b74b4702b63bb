// base64encode of apps/http_zot/src/httpd.c, against a decoder of section 4 of RFC 4648.
module Base64 {
  import opened Bits
  import opened Canonical

  // ---- the decoder ----

  // The value of a base64 digit.
  function Value(c: char): Option<nat>
  {
    if 'A' <= c <= 'Z' then Some(c as int - 'A' as int)
    else if 'a' <= c <= 'z' then Some(c as int - 'a' as int + 26)
    else if '0' <= c <= '9' then Some(c as int - '0' as int + 52)
    else if c == '+' then Some(62)
    else if c == '/' then Some(63)
    else None
  }

  // The bytes of the 24-bit group whose digits are a, b, c, d.
  function Group(a: nat, b: nat, c: nat, d: nat): seq<byte>
    requires a < 64 && b < 64 && c < 64 && d < 64
  {
    var w := ((a * 64 + b) * 64 + c) * 64 + d;
    [w / 65536, w / 256 % 256, w % 256]
  }

  lemma ValueRange(c: char)
    ensures Value(c).Some? ==> Value(c).value < 64
  {
  }

  // One group of four characters; a short last group is padded and its spare bits are zero.
  function DecodeGroup(t: string): Option<seq<byte>>
    requires |t| == 4
  {
    ValueRange(t[0]);
    ValueRange(t[1]);
    ValueRange(t[2]);
    ValueRange(t[3]);
    var a, b, c, d := Value(t[0]), Value(t[1]), Value(t[2]), Value(t[3]);
    if a.None? || b.None? then None
    else if t[2] == '=' then
      if t[3] == '=' && b.value % 16 == 0 then Some(Group(a.value, b.value, 0, 0)[..1]) else None
    else if c.None? then None
    else if t[3] == '=' then
      if c.value % 4 == 0 then Some(Group(a.value, b.value, c.value, 0)[..2]) else None
    else if d.None? then None
    else Some(Group(a.value, b.value, c.value, d.value))
  }

  function Decode(t: string): Option<seq<byte>>
  {
    if t == [] then Some([])
    else if |t| < 4 then None
    else
      var g, r := DecodeGroup(t[..4]), Decode(t[4..]);
      if g.None? || r.None? || (|t| > 4 && |g.value| < 3) then None else Some(g.value + r.value)
  }

  // ---- the encoder ----

  // basis_64[i]
  function Digit(i: nat): char
    requires i < 64
  {
    if i < 26 then 'A' + i as char
    else if i < 52 then 'a' + (i - 26) as char
    else if i < 62 then '0' + (i - 52) as char
    else if i == 62 then '+'
    else '/'
  }

  // The characters of one to three bytes.
  function EncodeGroup(s: seq<byte>): (t: string)
    requires 1 <= |s| <= 3
    ensures |t| == 4
  {
    var x: int := s[0];
    if |s| == 1 then [Digit(x / 4), Digit(x % 4 * 16), '=', '=']
    else
      var y: int := s[1];
      if |s| == 2 then [Digit(x / 4), Digit(x % 4 * 16 + y / 16), Digit(y % 16 * 4), '=']
      else
        var z: int := s[2];
        [Digit(x / 4), Digit(x % 4 * 16 + y / 16), Digit(y % 16 * 4 + z / 64), Digit(z % 64)]
  }

  function Encode(s: seq<byte>): string
  {
    if s == [] then [] else if |s| <= 3 then EncodeGroup(s) else EncodeGroup(s[..3]) + Encode(s[3..])
  }

  // base64encode: the text with its zero, and the length with the zero.
  method Base64Encode(s: seq<byte>) returns (encoded: string, n: nat)
    ensures encoded == Encode(s) + ['\0']
    ensures n == |encoded| == 4 * ((|s| + 2) / 3) + 1
  {
    hide Encode, EncodeGroup, Digit;
    var p: string := "";
    var i := 0;
    EncodeSteps(s);
    while i < |s| - 2
      invariant 0 <= i <= |s| && i % 3 == 0 && |p| == 4 * (i / 3) && p + Encode(s[i..]) == Encode(s)
    {
      EncodeSteps(s[i..]);
      assert s[i..][..3] == s[i..i + 3] && s[i..][3..] == s[i + 3..];
      var x: int, y: int, z: int := s[i], s[i + 1], s[i + 2];
      var g := [Digit(x / 4), Digit(x % 4 * 16 + y / 16), Digit(y % 16 * 4 + z / 64), Digit(z % 64)];
      ThreeBytes(s[i..i + 3]);
      p := p + g;
      i := i + 3;
    }
    EncodeSteps(s[i..]);
    if i < |s| {
      var t := Tail(s[i..]);
      p := p + t;
    }
    encoded := p + ['\0'];
    n := |encoded|;
  }

  // httpd.c:2163-2174: one or two bytes at the end.
  method Tail(s: seq<byte>) returns (t: string)
    requires 1 <= |s| <= 2
    ensures t == EncodeGroup(s)
  {
    hide EncodeGroup, Digit;
    LastBytes(s);
    var x: int := s[0];
    t := [Digit(x / 4)];
    if |s| == 1 {
      t := t + [Digit(x % 4 * 16), '='];
    } else {
      var y: int := s[1];
      t := t + [Digit(x % 4 * 16 + y / 16), Digit(y % 16 * 4)];
    }
    t := t + ['='];
  }

  lemma ThreeBytes(s: seq<byte>)
    requires |s| == 3
    ensures var x: int, y: int, z: int := s[0], s[1], s[2];
            EncodeGroup(s) == [Digit(x / 4), Digit(x % 4 * 16 + y / 16), Digit(y % 16 * 4 + z / 64), Digit(z % 64)]
  {
    hide Digit;
  }

  lemma LastBytes(s: seq<byte>)
    requires 1 <= |s| <= 2
    ensures var x: int := s[0];
            |s| == 1 ==> EncodeGroup(s) == [Digit(x / 4), Digit(x % 4 * 16), '=', '=']
    ensures var x: int := s[0];
            |s| == 2 ==> var y: int := s[1];
              EncodeGroup(s) == [Digit(x / 4), Digit(x % 4 * 16 + y / 16), Digit(y % 16 * 4), '=']
  {
    hide Digit;
  }

  lemma EncodeSteps(s: seq<byte>)
    ensures s == [] ==> Encode(s) == []
    ensures 1 <= |s| <= 2 ==> Encode(s) == EncodeGroup(s)
    ensures |s| >= 3 ==> Encode(s) == EncodeGroup(s[..3]) + Encode(s[3..])
  {
    hide EncodeGroup;
    if |s| == 3 { assert s[..3] == s && s[3..] == []; }
  }

  // ---- the laws ----

  lemma ValueOfDigit(i: nat)
    requires i < 64
    ensures Value(Digit(i)) == Some(i) && Digit(i) != '='
  {
  }

  // Splitting bytes into digits and joining them again.
  lemma Joined(x: nat, y: nat, z: nat)
    requires x < 256 && y < 256 && z < 256
    ensures var a, b, c, d := x / 4, x % 4 * 16 + y / 16, y % 16 * 4 + z / 64, z % 64;
            a < 64 && b < 64 && c < 64 && Group(a, b, c, d) == [x, y, z]
  {
    var b, c := x % 4 * 16 + y / 16, y % 16 * 4 + z / 64;
    Split(x / 4, x % 4, y / 16, y % 16, z / 64, z % 64);
    Bytes3(((x / 4 * 64 + b) * 64 + c) * 64 + z % 64, x, y, z);
  }

  lemma Split(a: nat, p: nat, b: nat, q: nat, c: nat, d: nat)
    ensures ((a * 64 + (p * 16 + b)) * 64 + (q * 4 + c)) * 64 + d ==
            (4 * a + p) * 65536 + (16 * b + q) * 256 + (64 * c + d)
  {
  }

  lemma Bytes3(w: nat, x: nat, y: nat, z: nat)
    requires w == x * 65536 + y * 256 + z && x < 256 && y < 256 && z < 256
    ensures w / 65536 == x && w / 256 % 256 == y && w % 256 == z
  {
    assert w / 256 == x * 256 + y;
  }

  lemma GroupBack(s: seq<byte>)
    requires 1 <= |s| <= 3
    ensures DecodeGroup(EncodeGroup(s)) == Some(s)
  {
    hide Digit, Value, Group;
    var x: int := s[0];
    var y: int := if |s| > 1 then s[1] else 0;
    var z: int := if |s| > 2 then s[2] else 0;
    Joined(x, y, z);
    ValueOfDigit(x / 4);
    ValueOfDigit(x % 4 * 16 + y / 16);
    ValueOfDigit(y % 16 * 4 + z / 64);
    ValueOfDigit(z % 64);
    PadIsNone();
    assert s == [x, y, z][..|s|];
    assert x % 4 * 16 % 16 == 0 && y % 16 * 4 % 4 == 0;
    if |s| == 3 {
      ThreeBytes(s);
      assert s == [x, y, z];
    } else {
      LastBytes(s);
    }
  }

  lemma PadIsNone()
    ensures Value('=') == None
  {
  }

  lemma {:induction false} RoundTrip(s: seq<byte>)
    ensures Decode(Encode(s)) == Some(s)
  {
    hide DecodeGroup, EncodeGroup;
    if s == [] {
    } else {
      var h := if |s| <= 3 then s else s[..3];
      GroupBack(h);
      var t := Encode(s);
      assert t[..4] == EncodeGroup(h);
      if |s| > 3 {
        RoundTrip(s[3..]);
        assert t[4..] == Encode(s[3..]);
        assert s == h + s[3..];
      } else {
        assert t[4..] == [];
        assert s + [] == s;
      }
    }
  }

  // Whole groups in front are encoded on their own.
  lemma {:induction false} EncodeAppend(a: seq<byte>, b: seq<byte>)
    requires |a| % 3 == 0
    ensures Encode(a + b) == Encode(a) + Encode(b)
  {
    hide EncodeGroup, Encode;
    EncodeSteps(a);
    EncodeSteps(a + b);
    if a == [] {
      assert a + b == b;
    } else {
      assert (a + b)[..3] == a[..3] && (a + b)[3..] == a[3..] + b;
      EncodeAppend(a[3..], b);
    }
  }

  // What IsSeedPassword relies on: "admin:" in front of anything is "YWRtaW46" in front of its code.
  lemma AdminPrefix(s: seq<byte>)
    ensures var admin: seq<byte> := [0x61, 0x64, 0x6D, 0x69, 0x6E, 0x3A];
            Encode(admin + s) == "YWRtaW46" + Encode(s)
  {
    hide Encode, EncodeGroup;
    var admin: seq<byte> := [0x61, 0x64, 0x6D, 0x69, 0x6E, 0x3A];
    EncodeAppend(admin, s);
    EncodeSteps(admin);
    assert admin[..3] == [0x61, 0x64, 0x6D] && admin[3..] == [0x69, 0x6E, 0x3A];
    EncodeSteps(admin[3..]);
    assert admin[3..][..3] == admin[3..] && admin[3..][3..] == [];
    EncodeSteps([]);
    AdminGroups();
  }

  lemma AdminGroups()
    ensures EncodeGroup([0x61, 0x64, 0x6D]) == "YWRt" && EncodeGroup([0x69, 0x6E, 0x3A]) == "aW46"
  {
    hide Digit, EncodeGroup;
    ThreeBytes([0x61, 0x64, 0x6D]);
    ThreeBytes([0x69, 0x6E, 0x3A]);
    AdminDigits();
  }

  lemma AdminDigits()
    ensures Digit(24) == 'Y' && Digit(22) == 'W' && Digit(17) == 'R' && Digit(45) == 't'
    ensures Digit(26) == 'a' && Digit(56) == '4' && Digit(58) == '6'
  {
  }
}
