// The tables huft_build makes for the two alphabets of DEFLATE, in terms of the
// reference decoder, and the parameters its callers pass.
module CodeTables {
  import opened Bits
  import opened Canonical
  import opened Tables
  import opened BuildInvariant
  import opened BuildSteps
  import opened BuildHole
  import opened BuildLoop
  import opened HuftStore
  import opened Huffman
  import opened Deflate
  import opened FixedCodes

  // ---- the two alphabets ----

  function LitSet(lens: seq<nat>): CodeSet { CodeSet(lens, 257, LenBase(), LenExtra()) }
  function DistSet(lens: seq<nat>): CodeSet { CodeSet(lens, 0, DistBase(), DistExtra()) }
  function ClSet(lens: seq<nat>): CodeSet { CodeSet(lens, 19, [], []) }

  // What inflate_codes gets for a literal/length symbol.
  ghost predicate LitFinds(T: Tabs, t: int, lb: nat, lens: seq<nat>, sym: nat, bs: seq<bool>)
    requires sym < |lens|
  {
    var x := Lookup(T, t, lb, bs);
    && x.Some?
    && (sym >= 286 ==> x.value.e == 99)
    && (sym < 286 ==> x.value.used == lens[sym])
    && (sym < 256 ==> x.value.e == 16 && x.value.v == sym)
    && (sym == 256 ==> x.value.e == 15)
    && (257 <= sym < 286 ==> x.value.e == LenExtra()[sym - 257] && x.value.v == LenBase()[sym - 257])
  }

  ghost predicate LitTable(T: Tabs, t: int, lb: nat, lens: seq<nat>, g: nat)
  {
    && g <= BMAX && (forall i :: 0 <= i < |lens| ==> lens[i] <= g)
    && forall sym: nat, bs :: |bs| == g && StartsWith(lens, sym, bs) ==> LitFinds(T, t, lb, lens, sym, bs)
  }

  ghost predicate DistFinds(T: Tabs, t: int, lb: nat, lens: seq<nat>, sym: nat, bs: seq<bool>)
    requires sym < |lens|
  {
    var x := Lookup(T, t, lb, bs);
    && x.Some?
    && (sym >= 30 ==> x.value.e == 99)
    && (sym < 30 ==> x.value.used == lens[sym] && x.value.e == DistExtra()[sym] && x.value.v == DistBase()[sym])
  }

  ghost predicate DistTable(T: Tabs, t: int, lb: nat, lens: seq<nat>, g: nat)
  {
    && g <= BMAX && (forall i :: 0 <= i < |lens| ==> lens[i] <= g)
    && forall sym: nat, bs :: |bs| == g && StartsWith(lens, sym, bs) ==> DistFinds(T, t, lb, lens, sym, bs)
  }

  lemma ExtrasSmall()
    ensures forall i :: 0 <= i < 31 ==> LenExtra()[i] <= 16 || LenExtra()[i] == 99
    ensures forall i :: 0 <= i < 30 ==> DistExtra()[i] <= 16
  {
  }

  lemma SetsMeaningful(lens: seq<nat>)
    requires forall i :: 0 <= i < |lens| ==> lens[i] <= BMAX
    ensures |lens| <= 288 ==> Meaningful(LitSet(lens))
    ensures |lens| <= 30 ==> Meaningful(DistSet(lens))
    ensures |lens| <= 19 ==> Meaningful(ClSet(lens))
  {
    hide LenBase, LenExtra, DistBase, DistExtra;
    ExtrasSmall();
  }

  lemma {:induction false} AllBelowLongest(lens: seq<nat>)
    ensures forall i :: 0 <= i < |lens| ==> lens[i] <= Longest(lens)
  {
    forall i | 0 <= i < |lens| ensures lens[i] <= Longest(lens) { LongestBounds(lens, i); }
  }

  lemma LitFromBuild(T: Tabs, t: int, lb: nat, lens: seq<nat>)
    requires |lens| <= 288 && Longest(lens) <= BMAX
    requires Longest(lens) > 0 ==> Decodes(T, t, lb, LitSet(lens), Longest(lens))
    ensures LitTable(T, t, lb, lens, Longest(lens))
  {
    hide Lookup, IsCode, Longest;
    AllBelowLongest(lens);
    forall sym: nat, bs | |bs| == Longest(lens) && StartsWith(lens, sym, bs) ensures LitFinds(T, t, lb, lens, sym, bs) {
      assert Finds(T, t, lb, LitSet(lens), sym, bs);
    }
  }

  lemma DistFromBuild(T: Tabs, t: int, lb: nat, lens: seq<nat>)
    requires |lens| <= 30 && Longest(lens) <= BMAX
    requires Longest(lens) > 0 ==> Decodes(T, t, lb, DistSet(lens), Longest(lens))
    ensures DistTable(T, t, lb, lens, Longest(lens))
  {
    hide Lookup, IsCode, Longest;
    AllBelowLongest(lens);
    forall sym: nat, bs | |bs| == Longest(lens) && StartsWith(lens, sym, bs)
        ensures DistFinds(T, t, lb, lens, sym, bs) {
      assert Finds(T, t, lb, DistSet(lens), sym, bs);
    }
  }

  // ---- table sizes are right for every caller ----

  lemma {:induction false} ShortestLeLongest(b: seq<nat>)
    ensures Shortest(b) <= Longest(b) && (Longest(b) > 0 ==> Shortest(b) > 0)
  {
    if b != [] { ShortestLeLongest(b[..|b| - 1]); }
  }

  lemma LookupBitsBounds(b: seq<nat>, m: nat)
    requires m >= 1
    ensures (if m <= Longest(b) then m else Longest(b)) <= LookupBits(b, m) <= Longest(b)
  {
    ShortestLeLongest(b);
  }

  lemma SnugTwo(c: seq<nat>, g: nat, l: nat)
    requires g < |c| && g < 2 * l
    ensures Snug(c, g, l)
  {
    hide Begins, Fits;
    forall m: nat, k: nat, p: nat | 1 <= m && Off(l, m) < k <= g && Begins(c, k, Off(l, m), p)
        ensures Fits(c, k, Off(l, m), p, l) {
      OffMono(l, 1, m);
      ShortFits(c, k, Off(l, m), p, l);
    }
  }

  lemma ShortFits(c: seq<nat>, k: nat, w: nat, p: nat, l: nat)
    requires w < k < |c| && k - w < l
    ensures Fits(c, k, w, p, l)
  {
  }

  // Literal/length tables of 9 bits, the code length table of 7: at most two levels.
  lemma TwoLevels(b: seq<nat>, m: nat)
    requires m >= 1 && Longest(b) > 0 && Longest(b) < 2 * m && Longest(b) <= BMAX
    ensures SnugSet(b, LookupBits(b, m))
  {
    hide Snug, Longest, FullCounts;
    LookupBitsBounds(b, m);
    SnugTwo(FullCounts(b), Longest(b), LookupBits(b, m));
  }

  // A long code below the first table needs as many codes behind it as a table has entries.
  lemma FewCodes(c: seq<nat>, g: nat, l: nat, k: nat, w: nat, p: nat)
    requires Complete(c, g) && w < k <= g && Begins(c, k, w, p) && Before(c, g + 1) < Pow2(l)
    ensures k - w < l
  {
    hide Pow2, First, Before;
    if k - w >= l {
      Pow2Mono(l, k - w);
      TailFills(c, g, k);
      Pow2Add(w, k - w);
      if p >= Pow2(w) { MulMono(Pow2(w), p, Pow2(k - w)); }
      MulMono(p + 1, Pow2(w), Pow2(k - w));
      MulAddOne(p, Pow2(k - w));
    }
  }

  lemma SnugFew(c: seq<nat>, g: nat, l: nat)
    requires Complete(c, g) && Before(c, g + 1) < Pow2(l)
    ensures Snug(c, g, l)
  {
    hide Begins, Fits, Complete, Before, Pow2;
    GInRange(c, g);
    forall m: nat, k: nat, p: nat | 1 <= m && Off(l, m) < k <= g && Begins(c, k, Off(l, m), p)
        ensures Fits(c, k, Off(l, m), p, l) {
      FewCodes(c, g, l, k, Off(l, m), p);
      ShortFits(c, k, Off(l, m), p, l);
    }
  }

  lemma GInRange(c: seq<nat>, g: nat)
    requires Complete(c, g)
    ensures g < |c|
  {
  }

  // Distance tables of 6 bits can have three levels, but a complete set has at most 30 codes.
  lemma DistSnug(b: seq<nat>)
    requires |b| <= 30 && Longest(b) > 0 && Longest(b) <= 15 && Verdict(b) == 0
    ensures SnugSet(b, LookupBits(b, 6))
  {
    hide Snug, Longest, Shortest, FullCounts, Kraft, Pow2, LookupBits;
    if Longest(b) < 12 {
      TwoLevels(b, 6);
    } else {
      BitsOfSix(b);
      CompleteSet(b);
      SnugFew(FullCounts(b), Longest(b), LookupBits(b, 6));
    }
  }

  lemma BitsOfSix(b: seq<nat>)
    requires Longest(b) >= 12
    ensures Pow2(LookupBits(b, 6)) >= 64
  {
    hide Longest;
    LookupBitsBounds(b, 6);
    Pow2Mono(6, LookupBits(b, 6));
    SmallPowers();
  }

  // A complete set is its own filled up counts, and has no more codes than lengths.
  lemma CompleteSet(b: seq<nat>)
    requires 0 < Longest(b) <= BMAX && Kraft(b) == Pow2(BMAX)
    ensures Complete(FullCounts(b), Longest(b)) && FullCounts(b) == Counts(b)
            && Before(FullCounts(b), Longest(b) + 1) <= |b|
  {
    hide Pow2, First, Count, Kraft, Before, Longest;
    var g := Longest(b);
    AllBelowLongest(b);
    LongestUsed(b);
    CompleteByKraft(b, g);
    assert First(Counts(b), g) <= Pow2(g) && Counts(b)[g] == Pow2(g) - First(Counts(b), g);
    assert FullCounts(b) == Counts(b);
    TotalCount(b);
    BeforeLe(Counts(b), g + 1, BMAX + 1);
  }

  // With other arguments the sizes can be wrong.  For the complete set 1, 2, 3, 3 and tables of
  // one bit, the code 10 begins a table that comes out two bits wide.
  lemma WideSet()
    ensures Kraft([1, 2, 3, 3]) == Pow2(BMAX) && LookupBits([1, 2, 3, 3], 1) == 1 && Longest([1, 2, 3, 3]) == 3
    ensures !SnugSet([1, 2, 3, 3], 1)
  {
    hide Pow2, Snug, FullCounts;
    var s: seq<nat> := [1, 2, 3, 3];
    assert s[..3] == [1, 2, 3] && s[..3][..2] == [1, 2] && [1, 2][..1] == [1] && [1][..0] == [];
    assert Kraft([1]) == Pow2(BMAX - 1) && Kraft([1, 2]) == Kraft([1]) + Pow2(BMAX - 2);
    assert Kraft([1, 2, 3]) == Kraft([1, 2]) + Pow2(BMAX - 3);
    assert Longest([1]) == Shortest([1]) == 1 && Longest([1, 2]) == 2 && Shortest([1, 2]) == 1;
    assert Longest(s) == 3 && Shortest(s) == 1;
    HighPowers();
    CompleteSet(s);
    WideCounts();
    NotSnugHere(Counts(s));
  }

  lemma WideCounts()
    ensures Counts([1, 2, 3, 3])[1] == 1 && Counts([1, 2, 3, 3])[2] == 1
  {
    var s: seq<nat> := [1, 2, 3, 3];
    assert s[..3] == [1, 2, 3] && s[..3][..2] == [1, 2] && [1, 2][..1] == [1] && [1][..0] == [];
    assert Count([1], 1) == 1 && Count([1], 2) == 0;
    assert Count([1, 2], 1) == 1 && Count([1, 2], 2) == 1;
    assert Count([1, 2, 3], 1) == 1 && Count([1, 2, 3], 2) == 1;
  }

  lemma NotSnugHere(c: seq<nat>)
    requires |c| == BMAX + 1 && c[1] == 1 && c[2] == 1
    ensures !Snug(c, 3, 1)
  {
    HighPowers();
    assert Off(1, 1) == Off(1, 0) + 1 == 1;
    assert First(c, 2) == 2 && Used(c, 2) == 3;
    assert Begins(c, 2, Off(1, 1), 1);
  }

  // What huft_build makes of it: a string that starts with a code leads to an entry that holds
  // whatever the memory held.
  method BuildWide(store: Store) returns (ret: nat, t: int)
    requires store.Valid()
    modifies store, store.heap
    ensures store.Valid()
    ensures ret == 3 || (ret == 0 && Spoiled(store.tables, t, 1, [1, 2, 3, 3], 3, store.junk))
    ensures ret == 0 && Useless(CodeSet([1, 2, 3, 3], 19, [], []), store.junk) ==>
              !Decodes(store.tables, t, 1, CodeSet([1, 2, 3, 3], 19, [], []), 3)
  {
    hide Useless, Kraft, Longest, SnugSet, Spoiled, LookupBits, Pow2, Owned, Decodes, Rejects;
    WideSet();
    SetsMeaningful([1, 2, 3, 3]);
    var r, root, _, us := HuftBuild(store, [1, 2, 3, 3], 19, [], [], 1);
    return r, root;
  }

  lemma HighPowers()
    ensures Pow2(BMAX) == 2 * Pow2(BMAX - 1) && Pow2(BMAX - 1) == 2 * Pow2(BMAX - 2)
            && Pow2(BMAX - 2) == 2 * Pow2(BMAX - 3)
    ensures Pow2(1) == 2
  {
    SmallPowers();
  }

  // ---- the fixed codes ----

  lemma FixedLitComplete()
    ensures |FixedLit()| == 288 && Verdict(FixedLit()) == 0 && Longest(FixedLit()) == 9
  {
    hide Kraft, Longest, Pow2, FixedLit;
    FixedKraft();
    FixedCode(0);
  }

  // The 30 five-bit distance codes the loader builds are incomplete, which it accepts.
  lemma FixedDistVerdict()
    ensures Verdict(Repeat(5, 30)) == 1 && Longest(Repeat(5, 30)) == 5
  {
    KraftRun(5, 30);
    SmallPowers();
    assert Pow2(11) == 2 * Pow2(10) && Pow2(10) == 2 * Pow2(9);
  }

  lemma FixedDistTable(T: Tabs, t: int, lb: nat)
    requires Decodes(T, t, lb, DistSet(Repeat(5, 30)), 5) && Rejects(T, t, lb, DistSet(Repeat(5, 30)), 5)
    ensures DistTable(T, t, lb, FixedDist(), 5)
  {
    hide IsCode, DistFinds, Decodes, Rejects, Repeat, FixedDist, Finds, FindsNone;
    var r, f := Repeat(5, 30), FixedDist();
    FixedDistIs();
    forall sym: nat, bs | |bs| == 5 && StartsWith(f, sym, bs) ensures DistFinds(T, t, lb, f, sym, bs) {
      FiveBits(32, sym, bs);
      if sym < 30 {
        FiveBits(30, sym, bs);
        FoundThere(T, t, lb, sym, bs);
      } else {
        forall i: nat ensures !StartsWith(r, i, bs) { FiveBits(30, i, bs); }
        RejectedThere(T, t, lb, sym, bs);
      }
    }
  }

  lemma FixedDistIs()
    ensures FixedDist() == Repeat(5, 32) && forall i :: 0 <= i < |FixedDist()| ==> FixedDist()[i] == 5
  {
  }

  // Five bits are the code of the symbol they spell.
  lemma FiveBits(n: nat, sym: nat, bs: seq<bool>)
    requires |bs| == 5
    ensures StartsWith(Repeat(5, n), sym, bs) <==> sym < n && Be(bs) == sym
  {
    hide CodeVal, Be;
    if sym < n { CodeInRun(5, n, sym); }
    assert bs[..5] == bs;
  }

  lemma FoundThere(T: Tabs, t: int, lb: nat, sym: nat, bs: seq<bool>)
    requires Decodes(T, t, lb, DistSet(Repeat(5, 30)), 5) && |bs| == 5
    requires StartsWith(Repeat(5, 30), sym, bs) && sym < 30
    ensures DistFinds(T, t, lb, Repeat(5, 32), sym, bs)
  {
    hide Lookup, StartsWith;
    assert Finds(T, t, lb, DistSet(Repeat(5, 30)), sym, bs);
  }

  lemma RejectedThere(T: Tabs, t: int, lb: nat, sym: nat, bs: seq<bool>)
    requires Rejects(T, t, lb, DistSet(Repeat(5, 30)), 5) && |bs| == 5 && 30 <= sym < 32
    requires forall i: nat :: !StartsWith(Repeat(5, 30), i, bs)
    ensures DistFinds(T, t, lb, Repeat(5, 32), sym, bs)
  {
    hide Lookup, StartsWith;
    assert FindsNone(T, t, lb, bs);
  }

  // ---- ranges ----

  lemma LengthRange(lc: nat)
    requires lc < 29
    ensures LenExtra()[lc] <= 5 && LenBase()[lc] >= 3
  {
  }

  // A distance never exceeds the window.
  lemma DistanceRange(ds: nat, x: nat)
    requires ds < 30 && x < Pow2(DistExtra()[ds])
    ensures DistExtra()[ds] <= 13 && 1 <= DistBase()[ds] + x <= 32768
  {
    SmallPowers();
    assert Pow2(10) == 2 * Pow2(9) && Pow2(11) == 2 * Pow2(10) && Pow2(12) == 2 * Pow2(11) && Pow2(13) == 2 * Pow2(12);
    assert ds == 0 || ds == 1 || ds == 2 || ds == 3 || ds == 4 || ds == 5 || ds == 6 || ds == 7 || ds == 8 || ds == 9
        || ds == 10 || ds == 11 || ds == 12 || ds == 13 || ds == 14 || ds == 15 || ds == 16 || ds == 17 || ds == 18
           || ds == 19
        || ds == 20 || ds == 21 || ds == 22 || ds == 23 || ds == 24 || ds == 25 || ds == 26 || ds == 27 || ds == 28
           || ds == 29;
  }
}
