// Canonical Huffman codes, section 3.2.2 of RFC 1951: a set of code lengths
// determines the codes.  This is the simple reading that the decoding tables of
// loader/src/inflate.c have to agree with.
module Canonical {
  import opened Bits

  const BMAX := 16

  datatype Option<+T> = None | Some(value: T)

  // How many of the lengths equal k.
  function Count(lens: seq<nat>, k: nat): nat
  {
    if lens == [] then 0
    else Count(lens[..|lens| - 1], k) + (if lens[|lens| - 1] == k then 1 else 0)
  }

  function Counts(lens: seq<nat>): (cnt: seq<nat>)
    ensures |cnt| == BMAX + 1
  {
    seq(BMAX + 1, k requires 0 <= k <= BMAX => Count(lens, k))
  }

  // The smallest code of each length (next_code in the RFC).
  function First(cnt: seq<nat>, k: nat): nat
    requires k <= |cnt|
  {
    if k <= 1 then 0 else 2 * (First(cnt, k - 1) + cnt[k - 1])
  }

  // Codes of length k or prefixes of shorter codes, out of Pow2(k).
  function Used(cnt: seq<nat>, k: nat): nat
    requires 1 <= k < |cnt|
  {
    First(cnt, k) + cnt[k]
  }

  ghost predicate NotOver(cnt: seq<nat>)
  {
    forall k :: 1 <= k < |cnt| ==> Used(cnt, k) <= Pow2(k)
  }

  // Longest length in use is g and every g-bit string starts with a code.
  ghost predicate Complete(cnt: seq<nat>, g: nat)
  {
    && 1 <= g < |cnt|
    && cnt[g] > 0
    && NotOver(cnt)
    && Used(cnt, g) == Pow2(g)
  }

  function Rank(lens: seq<nat>, sym: nat): nat
    requires sym < |lens|
  {
    Count(lens[..sym], lens[sym])
  }

  // The value of the code of a symbol.
  function CodeVal(lens: seq<nat>, sym: nat): nat
    requires sym < |lens| && lens[sym] <= BMAX
  {
    First(Counts(lens), lens[sym]) + Rank(lens, sym)
  }

  // word is the code of sym.
  predicate IsCode(lens: seq<nat>, sym: nat, word: seq<bool>)
  {
    sym < |lens| && lens[sym] == |word| && 0 < |word| <= BMAX && Be(word) == CodeVal(lens, sym)
  }

  function FindSymbol(lens: seq<nat>, word: seq<bool>, i: nat): (r: Option<nat>)
    requires i <= |lens|
    ensures r.Some? ==> IsCode(lens, r.value, word)
    decreases |lens| - i
  {
    if i == |lens| then None
    else if IsCode(lens, i, word) then Some(i)
    else FindSymbol(lens, word, i + 1)
  }

  datatype Decoded = Decoded(sym: nat, len: nat)

  // Bit-at-a-time decoding: lengthen the word until it is the code of a symbol.
  function DecodeFrom(lens: seq<nat>, bits: seq<bool>, pos: nat, k: nat): (r: Option<Decoded>)
    ensures r.Some? ==> pos + r.value.len <= |bits| && 0 < r.value.len <= BMAX
    ensures r.Some? ==> IsCode(lens, r.value.sym, bits[pos..pos + r.value.len])
    decreases BMAX + 1 - k
  {
    if k > BMAX || pos + k > |bits| then None
    else
      var f := FindSymbol(lens, bits[pos..pos + k], 0);
      if f.Some? then Some(Decoded(f.value, k)) else DecodeFrom(lens, bits, pos, k + 1)
  }

  function Decode(lens: seq<nat>, bits: seq<bool>, pos: nat): Option<Decoded>
  {
    DecodeFrom(lens, bits, pos, 1)
  }

  // ---- counting ----

  lemma {:induction false} CountTake(lens: seq<nat>, i: nat, k: nat)
    requires i <= |lens|
    ensures Count(lens[..i], k) <= Count(lens, k)
    ensures i < |lens| && lens[i] == k ==> Count(lens[..i], k) < Count(lens, k)
  {
    if lens == [] || i == |lens| {
      assert lens[..i] == lens;
    } else {
      var p := lens[..|lens| - 1];
      assert p[..i] == lens[..i];
      CountTake(p, i, k);
    }
  }

  lemma RankStrict(lens: seq<nat>, i: nat, j: nat)
    requires i < j < |lens| && lens[i] == lens[j]
    ensures Rank(lens, i) < Rank(lens, j)
  {
    assert lens[..j][..i] == lens[..i];
    CountTake(lens[..j], i, lens[j]);
  }

  // Every rank below the count is the rank of a symbol.
  lemma {:induction false} RankOnto(lens: seq<nat>, k: nat, r: nat) returns (sym: nat)
    requires r < Count(lens, k)
    ensures sym < |lens| && lens[sym] == k && Rank(lens, sym) == r
  {
    var p := lens[..|lens| - 1];
    if r < Count(p, k) {
      sym := RankOnto(p, k, r);
      assert p[..sym] == lens[..sym];
    } else {
      sym := |lens| - 1;
    }
  }

  // ---- the code values ----

  lemma {:induction false} FirstGrows(cnt: seq<nat>, k: nat, k': nat)
    requires 1 <= k < k' < |cnt|
    ensures Used(cnt, k) * Pow2(k' - k) <= First(cnt, k')
    decreases k'
  {
    if k' == k + 1 {
      assert Pow2(1) == 2;
    } else {
      FirstGrows(cnt, k, k' - 1);
      assert Pow2(k' - k) == 2 * Pow2(k' - 1 - k);
      assert Used(cnt, k) * Pow2(k' - k) == 2 * (Used(cnt, k) * Pow2(k' - 1 - k));
    }
  }

  lemma MulMono(a: nat, b: nat, c: nat)
    requires a <= b
    ensures a * c <= b * c
  {
    assert b * c == a * c + (b - a) * c;
  }

  // No code is a proper prefix of another code.
  lemma PrefixFree(cnt: seq<nat>, s: seq<bool>, k: nat, k': nat)
    requires 1 <= k < k' < |cnt| && k' <= |s|
    requires Be(s[..k]) < Used(cnt, k)
    ensures Be(s[..k']) < First(cnt, k')
  {
    var t := s[..k'];
    assert t[..k] == s[..k];
    BeSplit(t, k);
    FirstGrows(cnt, k, k');
    MulMono(Be(s[..k]) + 1, Used(cnt, k), Pow2(k' - k));
  }

  // With a longest length g in use and no oversubscription, shorter lengths leave room.
  lemma RoomBelow(cnt: seq<nat>, k: nat, g: nat)
    requires NotOver(cnt) && 1 <= k < g < |cnt| && cnt[g] > 0
    ensures Used(cnt, k) < Pow2(k)
  {
    FirstGrows(cnt, k, g);
    assert Used(cnt, g) <= Pow2(g);
    if Used(cnt, k) >= Pow2(k) {
      MulMono(Pow2(k), Used(cnt, k), Pow2(g - k));
      Pow2Add(k, g - k);
      assert false;
    }
  }

  // ---- symbols ----

  lemma CodeValBound(lens: seq<nat>, sym: nat)
    requires sym < |lens| && 1 <= lens[sym] <= BMAX
    ensures First(Counts(lens), lens[sym]) <= CodeVal(lens, sym) < Used(Counts(lens), lens[sym])
  {
    CountTake(lens, sym, lens[sym]);
  }

  // At most one symbol's code is a prefix of a given bit string.
  lemma CodesUnique(lens: seq<nat>, i: nat, j: nat, s: seq<bool>)
    requires i < |lens| && lens[i] <= |s| && IsCode(lens, i, s[..lens[i]])
    requires j < |lens| && lens[j] <= |s| && IsCode(lens, j, s[..lens[j]])
    ensures i == j
  {
    CodeValBound(lens, i);
    CodeValBound(lens, j);
    if lens[i] < lens[j] { PrefixFree(Counts(lens), s, lens[i], lens[j]); }
    if lens[j] < lens[i] { PrefixFree(Counts(lens), s, lens[j], lens[i]); }
    if i < j && lens[i] == lens[j] { RankStrict(lens, i, j); }
    if j < i && lens[i] == lens[j] { RankStrict(lens, j, i); }
  }

  // The two rules that fix the codes: codes of one length follow each other in the order of the
  // symbols, and shorter codes come before all that start with a longer one.
  lemma CodesOrdered(lens: seq<nat>, i: nat, j: nat)
    requires i < |lens| && j < |lens| && 1 <= lens[i] <= BMAX && 1 <= lens[j] <= BMAX
    ensures lens[i] == lens[j] && i < j && (forall k :: i < k < j ==> lens[k] != lens[i]) ==>
              CodeVal(lens, j) == CodeVal(lens, i) + 1
    ensures lens[i] < lens[j] ==> (CodeVal(lens, i) + 1) * Pow2(lens[j] - lens[i]) <= CodeVal(lens, j)
  {
    CodeValBound(lens, i);
    CodeValBound(lens, j);
    if lens[i] < lens[j] {
      FirstGrows(Counts(lens), lens[i], lens[j]);
      MulMono(CodeVal(lens, i) + 1, Used(Counts(lens), lens[i]), Pow2(lens[j] - lens[i]));
    } else if lens[i] == lens[j] && i < j && forall k :: i < k < j ==> lens[k] != lens[i] {
      NoneBetween(lens, i, j);
    }
  }

  lemma {:induction false} NoneBetween(lens: seq<nat>, i: nat, j: nat)
    requires i < j < |lens| && forall k :: i < k < j ==> lens[k] != lens[i]
    ensures Count(lens[..j], lens[i]) == Count(lens[..i], lens[i]) + 1
    decreases j
  {
    assert lens[..j][..j - 1] == lens[..j - 1];
    if i + 1 < j { NoneBetween(lens, i, j - 1); }
  }

  // A symbol whose code is a prefix of the stream is what the bit-at-a-time decoder returns.
  lemma {:induction false} DecodeFinds(lens: seq<nat>, bits: seq<bool>, pos: nat, k: nat, sym: nat)
    requires sym < |lens| && 1 <= k <= lens[sym] <= BMAX && pos + lens[sym] <= |bits|
    requires IsCode(lens, sym, bits[pos..pos + lens[sym]])
    ensures DecodeFrom(lens, bits, pos, k) == Some(Decoded(sym, lens[sym]))
    decreases lens[sym] - k
  {
    var s := bits[pos..];
    assert s[..lens[sym]] == bits[pos..pos + lens[sym]];
    var f := FindSymbol(lens, bits[pos..pos + k], 0);
    if f.Some? {
      assert s[..k] == bits[pos..pos + k];
      CodesUnique(lens, f.value, sym, s);
    } else {
      FoundIfAny(lens, bits[pos..pos + k], 0, sym);
      DecodeFinds(lens, bits, pos, k + 1, sym);
    }
  }

  lemma {:induction false} FoundIfAny(lens: seq<nat>, word: seq<bool>, i: nat, sym: nat)
    requires i <= sym < |lens|
    ensures IsCode(lens, sym, word) ==> FindSymbol(lens, word, i).Some?
    decreases sym - i
  {
    if i < sym { FoundIfAny(lens, word, i + 1, sym); }
  }

  // ---- completeness ----

  lemma Descend(cnt: seq<nat>, s: seq<bool>, k: nat)
    requires 1 <= k < |cnt| && k <= |s| && Be(s[..k]) < First(cnt, k)
    ensures k > 1 && Be(s[..k - 1]) < Used(cnt, k - 1)
  {
    hide Be;
    BeSplit(s[..k], k - 1);
    assert s[..k][..k - 1] == s[..k - 1];
    assert Pow2(1) == 2;
  }

  // The slot of the code that starts a string: its length k, and its value.
  lemma SlotOf(cnt: seq<nat>, g: nat, s: seq<bool>) returns (k: nat)
    requires Complete(cnt, g) && |s| == g
    ensures 1 <= k <= g && First(cnt, k) <= Be(s[..k]) < Used(cnt, k)
  {
    hide Be;
    k := g;
    assert s[..g] == s;
    BeBound(s);
    while Be(s[..k]) < First(cnt, k)
      invariant 1 <= k <= g
      invariant Be(s[..k]) < Used(cnt, k)
      decreases k
    {
      Descend(cnt, s, k);
      k := k - 1;
    }
  }

  // In a complete set every string of g bits starts with the code of exactly one symbol,
  // and that is the symbol decoded.
  lemma CompleteDecodes(lens: seq<nat>, g: nat, bits: seq<bool>, pos: nat) returns (sym: nat)
    requires Complete(Counts(lens), g) && g <= BMAX && pos + g <= |bits|
    ensures sym < |lens| && 1 <= lens[sym] <= g && IsCode(lens, sym, bits[pos..pos + lens[sym]])
    ensures Decode(lens, bits, pos) == Some(Decoded(sym, lens[sym]))
  {
    hide Be;
    var s := bits[pos..pos + g];
    var k := SlotOf(Counts(lens), g, s);
    sym := RankOnto(lens, k, Be(s[..k]) - First(Counts(lens), k));
    assert bits[pos..pos + k] == s[..k];
    DecodeFinds(lens, bits, pos, 1, sym);
  }

  // ---- the Kraft sum ----

  // Sum over the used symbols of 2^(BMAX - length).
  function Kraft(lens: seq<nat>): nat
  {
    if lens == [] then 0
    else
      var n := lens[|lens| - 1];
      Kraft(lens[..|lens| - 1]) + (if 1 <= n <= BMAX then Pow2(BMAX - n) else 0)
  }

  // The same sum taken length by length, for lengths up to k.
  function KraftTo(cnt: seq<nat>, k: nat): nat
    requires k < |cnt| == BMAX + 1
  {
    if k == 0 then 0 else KraftTo(cnt, k - 1) + cnt[k] * Pow2(BMAX - k)
  }

  lemma {:induction false} KraftToUsed(cnt: seq<nat>, k: nat)
    requires |cnt| == BMAX + 1 && 1 <= k <= BMAX
    ensures KraftTo(cnt, k) == Used(cnt, k) * Pow2(BMAX - k)
  {
    hide Pow2;
    if k == 1 {
      assert KraftTo(cnt, 1) == cnt[1] * Pow2(BMAX - 1);
    } else {
      KraftToUsed(cnt, k - 1);
      Pow2Step(BMAX - k);
      Regroup(Used(cnt, k - 1), Pow2(BMAX - k), cnt[k]);
    }
  }

  lemma Regroup(u: nat, p: nat, c: nat)
    ensures u * (2 * p) + c * p == (2 * u + c) * p
  {
  }

  lemma Product(a: nat, b: nat)
    ensures a * b >= 0
  {
  }

  lemma {:induction false} KraftToMono(cnt: seq<nat>, k: nat, k': nat)
    requires |cnt| == BMAX + 1 && k <= k' <= BMAX
    ensures KraftTo(cnt, k) <= KraftTo(cnt, k')
    decreases k'
  {
    hide Pow2;
    if k < k' {
      KraftToMono(cnt, k, k' - 1);
      Product(cnt[k'], Pow2(BMAX - k'));
    }
  }

  ghost function Bump(cnt: seq<nat>, n: nat): (r: seq<nat>)
    requires n < |cnt|
    ensures |r| == |cnt|
  {
    cnt[n := cnt[n] + 1]
  }

  lemma {:induction false} KraftToBump(cnt: seq<nat>, n: nat, k: nat)
    requires |cnt| == BMAX + 1 && n <= BMAX && k <= BMAX
    ensures KraftTo(Bump(cnt, n), k) == KraftTo(cnt, k) + (if 1 <= n <= k then Pow2(BMAX - n) else 0)
  {
    hide Pow2;
    if k > 0 {
      KraftToBump(cnt, n, k - 1);
      MulAddOne(cnt[k], Pow2(BMAX - k));
    }
  }

  lemma {:induction false} KraftByCounts(lens: seq<nat>)
    requires forall i :: 0 <= i < |lens| ==> lens[i] <= BMAX
    ensures Kraft(lens) == KraftTo(Counts(lens), BMAX)
  {
    if lens == [] {
      KraftToZero(Counts(lens), BMAX);
    } else {
      var p, n := lens[..|lens| - 1], lens[|lens| - 1];
      KraftByCounts(p);
      assert Counts(lens) == Bump(Counts(p), n);
      KraftToBump(Counts(p), n, BMAX);
    }
  }

  lemma {:induction false} KraftToZero(cnt: seq<nat>, k: nat)
    requires |cnt| == BMAX + 1 && k <= BMAX
    requires forall j :: 1 <= j <= BMAX ==> cnt[j] == 0
    ensures KraftTo(cnt, k) == 0
  {
    if k > 0 { KraftToZero(cnt, k - 1); }
  }

  lemma MulCancel(a: nat, b: nat, c: nat)
    requires c > 0
    ensures a * c <= b * c <==> a <= b
  {
    if a <= b { MulMono(a, b, c); }
    if a > b {
      MulMono(b + 1, a, c);
      assert (b + 1) * c == b * c + c;
    }
  }

  // A set of lengths is oversubscribed exactly when its Kraft sum exceeds one.
  lemma OverByKraft(lens: seq<nat>)
    requires forall i :: 0 <= i < |lens| ==> lens[i] <= BMAX
    ensures NotOver(Counts(lens)) <==> Kraft(lens) <= Pow2(BMAX)
  {
    var cnt := Counts(lens);
    KraftByCounts(lens);
    forall k | 1 <= k <= BMAX
      ensures Used(cnt, k) <= Pow2(k) <==> KraftTo(cnt, k) <= Pow2(BMAX)
      ensures KraftTo(cnt, k) <= Kraft(lens)
    {
      KraftToUsed(cnt, k);
      Pow2Add(k, BMAX - k);
      MulCancel(Used(cnt, k), Pow2(k), Pow2(BMAX - k));
      KraftToMono(cnt, k, BMAX);
    }
    assert NotOver(cnt) ==> Used(cnt, BMAX) <= Pow2(BMAX);
  }

  // With g the longest length, the Kraft sum is one exactly when the code is complete.
  lemma CompleteByKraft(lens: seq<nat>, g: nat)
    requires forall i :: 0 <= i < |lens| ==> lens[i] <= g
    requires 1 <= g <= BMAX && Count(lens, g) > 0
    ensures Complete(Counts(lens), g) <==> Kraft(lens) == Pow2(BMAX)
  {
    hide Kraft, KraftTo, First, Pow2;
    var cnt := Counts(lens);
    OverByKraft(lens);
    KraftByCounts(lens);
    forall k | g < k <= BMAX ensures cnt[k] == 0 { CountAbove(lens, g, k); }
    KraftToFlat(cnt, g, BMAX);
    KraftToUsed(cnt, g);
    Pow2Add(g, BMAX - g);
    MulCancel(Used(cnt, g), Pow2(g), Pow2(BMAX - g));
    MulCancel(Pow2(g), Used(cnt, g), Pow2(BMAX - g));
  }

  lemma {:induction false} CountAbove(lens: seq<nat>, g: nat, k: nat)
    requires forall i :: 0 <= i < |lens| ==> lens[i] <= g
    requires k > g
    ensures Count(lens, k) == 0
  {
    if lens != [] { CountAbove(lens[..|lens| - 1], g, k); }
  }

  lemma {:induction false} KraftToFlat(cnt: seq<nat>, g: nat, k: nat)
    requires |cnt| == BMAX + 1 && g <= k <= BMAX
    requires forall j :: g < j <= BMAX ==> cnt[j] == 0
    ensures KraftTo(cnt, k) == KraftTo(cnt, g)
    decreases k
  {
    if g < k { KraftToFlat(cnt, g, k - 1); }
  }

  // ---- judging a set ----

  // The longest length in a set.
  function Longest(b: seq<nat>): nat
  {
    if b == [] then 0
    else
      var n, m := b[|b| - 1], Longest(b[..|b| - 1]);
      if n > m then n else m
  }

  // How a set of lengths is judged: 2 when it is oversubscribed, 1 when it is incomplete and
  // longer than one bit, 0 otherwise.
  function Verdict(b: seq<nat>): nat
  {
    if Kraft(b) > Pow2(BMAX) then 2
    else if Longest(b) > 1 && Kraft(b) < Pow2(BMAX) then 1
    else 0
  }
}
