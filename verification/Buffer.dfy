// Writing into a byte buffer.
module Buffer {
  import opened Bits

  function Patch(s: seq<byte>, at: nat, d: seq<byte>): (r: seq<byte>)
    requires at + |d| <= |s|
    ensures |r| == |s|
  {
    s[..at] + d + s[at + |d|..]
  }

  function Fill(x: byte, n: nat): (r: seq<byte>)
    ensures |r| == n
  {
    seq(n, _ => x)
  }

  lemma FillSplit(x: byte, a: nat, b: nat)
    ensures Fill(x, a + b) == Fill(x, a) + Fill(x, b)
  {
  }

  lemma PatchMiddle(a: seq<byte>, x: seq<byte>, c: seq<byte>, y: seq<byte>)
    requires |x| == |y|
    ensures Patch(a + x + c, |a|, y) == a + y + c
  {
    var s := a + x + c;
    assert s[..|a|] == a && s[|a| + |y|..] == c;
  }

  lemma PatchFill(a: seq<byte>, x: byte, n: nat, d: seq<byte>)
    requires |d| <= n
    ensures Patch(a + Fill(x, n), |a|, d) == a + d + Fill(x, n - |d|)
  {
    var s := a + Fill(x, n);
    assert s[..|a|] == a && s[|a| + |d|..] == Fill(x, n - |d|);
  }

  method Memcpy(buf: array<byte>, at: nat, d: seq<byte>)
    requires at + |d| <= buf.Length
    modifies buf
    ensures buf[..] == Patch(old(buf[..]), at, d)
  {
    var i := 0;
    while i < |d|
      invariant 0 <= i <= |d|
      invariant buf[..] == old(buf[..])[..at] + d[..i] + old(buf[..])[at + i..]
    {
      ghost var was := buf[..];
      buf[at + i] := d[i];
      PokeNext(was, old(buf[..]), at, d, i);
      assert buf[..] == was[at + i := d[i]];
      i := i + 1;
    }
    assert d[..i] == d;
  }

  lemma PokeNext(was: seq<byte>, s: seq<byte>, at: nat, d: seq<byte>, i: nat)
    requires at + |d| <= |s| && i < |d| && was == s[..at] + d[..i] + s[at + i..]
    ensures was[at + i := d[i]] == s[..at] + d[..i + 1] + s[at + i + 1..]
  {
  }
}
