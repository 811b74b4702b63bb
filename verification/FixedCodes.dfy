// The fixed codes of section 3.2.6 of RFC 1951, as the numbers its table gives.
module FixedCodes {
  import opened Bits
  import opened Canonical
  import opened Deflate

  // ---- sets of equal lengths and their concatenations ----

  lemma {:induction false} KraftAppend(a: seq<nat>, b: seq<nat>)
    ensures Kraft(a + b) == Kraft(a) + Kraft(b)
    ensures Longest(a + b) == if Longest(a) >= Longest(b) then Longest(a) else Longest(b)
  {
    if b == [] {
      assert a + b == a;
    } else {
      var c := b[..|b| - 1];
      KraftAppend(a, c);
      assert (a + b)[..|a + b| - 1] == a + c;
    }
  }

  lemma {:induction false} KraftRun(x: nat, n: nat)
    requires 1 <= x <= BMAX
    ensures Kraft(Repeat(x, n)) == n * Pow2(BMAX - x) && Longest(Repeat(x, n)) == if n == 0 then 0 else x
  {
    if n > 0 {
      KraftRun(x, n - 1);
      assert Repeat(x, n)[..n - 1] == Repeat(x, n - 1);
      MulAddOne(n - 1, Pow2(BMAX - x));
    }
  }

  // The fixed literal/length code is complete.
  lemma {:induction false} CountRun(x: nat, n: nat, k: nat)
    ensures Count(Repeat(x, n), k) == if k == x then n else 0
  {
    if n > 0 {
      CountRun(x, n - 1, k);
      assert Repeat(x, n)[..n - 1] == Repeat(x, n - 1);
    }
  }

  // In a set of equal lengths the code of a symbol is the symbol itself.
  lemma CodeInRun(x: nat, n: nat, sym: nat)
    requires 1 <= x <= BMAX && sym < n
    ensures CodeVal(Repeat(x, n), sym) == sym
  {
    var r := Repeat(x, n);
    assert r[..sym] == Repeat(x, sym);
    CountRun(x, sym, x);
    forall j | 1 <= j < x ensures Counts(r)[j] == 0 { CountRun(x, n, j); }
    NoneBelow(Counts(r), x);
  }

  lemma {:induction false} CountAppend(a: seq<nat>, b: seq<nat>, k: nat)
    ensures Count(a + b, k) == Count(a, k) + Count(b, k)
  {
    if b == [] {
      assert a + b == a;
    } else {
      CountAppend(a, b[..|b| - 1], k);
      assert (a + b)[..|a + b| - 1] == a + b[..|b| - 1];
    }
  }

  lemma FixedCounts(k: nat)
    ensures Count(FixedLit(), k) == if k == 7 then 24 else if k == 8 then 152 else if k == 9 then 112 else 0
  {
    hide Count;
    var a, b, c, d := Repeat(8, 144), Repeat(9, 112), Repeat(7, 24), Repeat(8, 8);
    assert FixedLit() == a + b + c + d;
    CountAppend(a + b + c, d, k);
    CountAppend(a + b, c, k);
    CountAppend(a, b, k);
    CountRun(8, 144, k);
    CountRun(9, 112, k);
    CountRun(7, 24, k);
    CountRun(8, 8, k);
  }

  lemma FixedParts()
    ensures FixedLit() == Repeat(8, 144) + Repeat(9, 112) + Repeat(7, 24) + Repeat(8, 8)
  {
  }

  lemma FixedFirsts()
    ensures var c := Counts(FixedLit()); First(c, 7) == 0 && First(c, 8) == 48 && First(c, 9) == 400
  {
    hide Count;
    var c := Counts(FixedLit());
    forall k | 0 <= k <= BMAX ensures c[k] == Count(FixedLit(), k) {}
    forall j | 1 <= j <= 9 ensures c[j] == if j == 7 then 24 else if j == 8 then 152 else if j == 9 then 112 else 0 {
      FixedCounts(j);
    }
    NoneBelow(c, 7);
  }

  lemma {:induction false} NoneBelow(c: seq<nat>, k: nat)
    requires k <= |c| && forall j :: 1 <= j < k ==> c[j] == 0
    ensures First(c, k) == 0
  {
    if k > 1 { NoneBelow(c, k - 1); }
  }

  // How many symbols before sym have its length.
  lemma FixedRank(sym: nat)
    requires sym < 288
    ensures |FixedLit()| == 288
    ensures Rank(FixedLit(), sym) ==
            if sym < 144 then sym else if sym < 256 then sym - 144 else if sym < 280 then sym - 256
              else 144 + (sym - 280)
  {
    hide Count;
    var f, a, b, c := FixedLit(), Repeat(8, 144), Repeat(9, 112), Repeat(7, 24);
    FixedParts();
    var k := f[sym];
    CountRun(8, 144, k);
    CountRun(9, 112, k);
    CountRun(7, 24, k);
    CountAppend(a, b, k);
    CountAppend(a + b, c, k);
    if sym < 144 {
      assert f[..sym] == Repeat(8, sym);
      CountRun(8, sym, k);
    } else if sym < 256 {
      assert f[..sym] == a + Repeat(9, sym - 144);
      CountAppend(a, Repeat(9, sym - 144), k);
      CountRun(9, sym - 144, k);
    } else if sym < 280 {
      assert f[..sym] == a + b + Repeat(7, sym - 256);
      CountAppend(a + b, Repeat(7, sym - 256), k);
      CountRun(7, sym - 256, k);
    } else {
      assert f[..sym] == a + b + c + Repeat(8, sym - 280);
      CountAppend(a + b + c, Repeat(8, sym - 280), k);
      CountRun(8, sym - 280, k);
    }
  }

  // The table of the RFC: the literal/length symbols of each range, their lengths and codes.
  lemma FixedCode(sym: nat)
    requires sym < 288
    ensures |FixedLit()| == 288
    ensures sym < 144 ==> FixedLit()[sym] == 8 && CodeVal(FixedLit(), sym) == 48 + sym
    ensures 144 <= sym < 256 ==> FixedLit()[sym] == 9 && CodeVal(FixedLit(), sym) == 400 + (sym - 144)
    ensures 256 <= sym < 280 ==> FixedLit()[sym] == 7 && CodeVal(FixedLit(), sym) == sym - 256
    ensures 280 <= sym ==> FixedLit()[sym] == 8 && CodeVal(FixedLit(), sym) == 192 + (sym - 280)
  {
    hide First, Rank;
    FixedFirsts();
    FixedRank(sym);
  }

  // Distance symbols are five-bit numbers.
  lemma FixedDistCode(sym: nat)
    requires sym < 32
    ensures |FixedDist()| == 32 && FixedDist()[sym] == 5 && CodeVal(FixedDist(), sym) == sym
  {
    hide First, Rank, Be, Word;
    assert FixedDist() == Repeat(5, 32);
    SmallPowers();
    BeWord(sym, 5);
    CodeInRun(5, 32, sym);
    assert IsCode(FixedDist(), sym, Word(sym, 5));
  }

  lemma FixedKraft()
    ensures Kraft(FixedLit()) == Pow2(BMAX) && Longest(FixedLit()) == 9
    ensures Kraft(FixedDist()) == Pow2(BMAX) && Longest(FixedDist()) == 5
  {
    hide Kraft, Longest, Pow2;
    var a, b, c, d := Repeat(8, 144), Repeat(9, 112), Repeat(7, 24), Repeat(8, 8);
    FixedParts();
    KraftRun(8, 144);
    KraftRun(9, 112);
    KraftRun(7, 24);
    KraftRun(8, 8);
    KraftAppend(a, b);
    KraftAppend(a + b, c);
    KraftAppend(a + b + c, d);
    assert FixedDist() == Repeat(5, 32);
    KraftRun(5, 32);
    SmallPowers();
    ElevenBits();
  }

  lemma ElevenBits()
    ensures 32 * Pow2(11) == Pow2(BMAX)
  {
    assert Pow2(16) == 2 * Pow2(15) && Pow2(15) == 2 * Pow2(14) && Pow2(14) == 2 * Pow2(13) && Pow2(13) == 2 * Pow2(12);
  }
}
