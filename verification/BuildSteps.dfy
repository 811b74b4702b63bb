// The value-level stages of huft_build in loader/src/inflate.c: counting lengths,
// bounding the table size, checking the Kraft sum, sorting symbols by code, and
// choosing the size of a table.
module BuildSteps {
  import opened Bits
  import opened Canonical
  import opened BuildInvariant

  const N_MAX := 288

  // inflate.c:305-316
  method CountLengths(b: seq<nat>) returns (c: seq<nat>)
    requires forall i :: 0 <= i < |b| ==> b[i] <= BMAX
    ensures c == Counts(b)
  {
    c := seq(BMAX + 1, _ => 0);
    var i := 0;
    while i < |b|
      invariant 0 <= i <= |b|
      invariant c == Counts(b[..i])
    {
      assert b[..i + 1][..i] == b[..i];
      c := c[b[i] := c[b[i]] + 1];
      i := i + 1;
    }
    assert b[..|b|] == b;
  }

  lemma {:induction false} AllZero(b: seq<nat>)
    ensures Count(b, 0) <= |b|
    ensures Count(b, 0) == |b| <==> forall i :: 0 <= i < |b| ==> b[i] == 0
  {
    if b != [] { AllZero(b[..|b| - 1]); }
  }

  lemma {:induction false} SomeCounted(b: seq<nat>, i: nat)
    requires i < |b|
    ensures Count(b, b[i]) > 0
  {
    if i < |b| - 1 { SomeCounted(b[..|b| - 1], i); }
  }

  // inflate.c:326-340: shortest and longest length in use, and m bounded by them.
  method Bounds(c: seq<nat>, m: nat) returns (k: nat, g: nat, l: nat)
    requires |c| == BMAX + 1 && exists j :: 1 <= j <= BMAX && c[j] > 0
    ensures 1 <= k <= g <= BMAX && c[k] > 0 && c[g] > 0
    ensures forall j :: 1 <= j < k || g < j <= BMAX ==> c[j] == 0
    ensures l == if m < k then k else if m > g then g else m
  {
    k := 1;
    while c[k] == 0
      invariant 1 <= k <= BMAX
      invariant forall j :: 1 <= j < k ==> c[j] == 0
      decreases BMAX - k
    {
      assert k < BMAX;
      k := k + 1;
    }
    l := m;
    if l < k { l := k; }
    g := BMAX;
    while c[g] == 0
      invariant k <= g <= BMAX
      invariant forall j :: g < j <= BMAX ==> c[j] == 0
      decreases g
    {
      g := g - 1;
    }
    if l > g { l := g; }
  }

  lemma {:induction false} NothingBelow(c: seq<nat>, k: nat, j: nat)
    requires 1 <= j <= k <= |c| && (forall i :: 1 <= i < k && i < |c| ==> c[i] == 0)
    ensures First(c, j) == 0 && Before(c, j) == 0
  {
    if j > 1 { NothingBelow(c, k, j - 1); }
  }

  lemma {:induction false} NotOverAbove(c: seq<nat>, g: nat, j: nat)
    requires 1 <= g <= j < |c| && Used(c, g) <= Pow2(g) && (forall i :: g < i < |c| ==> c[i] == 0)
    ensures Used(c, j) <= Pow2(j)
    decreases j
  {
    if j > g { NotOverAbove(c, g, j - 1); }
  }

  lemma FirstStep(c: seq<nat>, j: nat)
    requires 1 <= j < |c|
    ensures First(c, j + 1) == 2 * Used(c, j)
  {
  }

  // Lengths without codes never oversubscribe, as long as the others do not.
  lemma NotOverIf(c: seq<nat>, k: nat, g: nat)
    requires 1 <= k <= g < |c| && (forall j :: 1 <= j < k || g < j < |c| ==> c[j] == 0)
    requires forall j :: k <= j <= g ==> Used(c, j) <= Pow2(j)
    ensures NotOver(c)
  {
    forall i | 1 <= i < |c| ensures Used(c, i) <= Pow2(i) {
      if i < k { NothingBelow(c, k, i); }
      if i > g { NotOverAbove(c, g, i); }
    }
  }

  // inflate.c:342-348: over is the return of 2; otherwise y codes are left unused.
  method CheckKraft(c: seq<nat>, k: nat, g: nat) returns (over: bool, y: int)
    requires |c| == BMAX + 1 && 1 <= k <= g <= BMAX
    requires forall j :: 1 <= j < k || g < j <= BMAX ==> c[j] == 0
    ensures over <==> !NotOver(c)
    ensures !over ==> y == Pow2(g) - Used(c, g) >= 0
  {
    hide First, Pow2;
    var j := k;
    y := Pow2(k);
    NothingBelow(c, k, k);
    while j < g
      invariant k <= j <= g && y == Pow2(j) - First(c, j)
      invariant forall i :: k <= i < j ==> Used(c, i) <= Pow2(i)
    {
      y := y - c[j];
      if y < 0 {
        assert Used(c, j) > Pow2(j);
        return true, y;
      }
      FirstStep(c, j);
      Pow2Step(j);
      j, y := j + 1, 2 * y;
    }
    y := y - c[g];
    over := y < 0;
    if over {
      assert Used(c, g) > Pow2(g);
    } else {
      NotOverIf(c, k, g);
    }
  }

  lemma {:induction false} FirstSame(c: seq<nat>, c': seq<nat>, g: nat, k: nat)
    requires |c| == |c'| && k <= g < |c| && (forall j :: 1 <= j < g ==> c[j] == c'[j])
    ensures First(c, k) == First(c', k) && Before(c, k) == Before(c', k)
  {
    if k > 1 { FirstSame(c, c', g, k - 1); }
  }

  // inflate.c:349: the last length is filled up, which makes the set complete.
  lemma PadComplete(c: seq<nat>, g: nat, y: nat)
    requires |c| == BMAX + 1 && 1 <= g <= BMAX && c[g] > 0 && NotOver(c) && y == Pow2(g) - Used(c, g)
    requires forall j :: g < j <= BMAX ==> c[j] == 0
    ensures Complete(c[g := c[g] + y], g)
  {
    var c' := c[g := c[g] + y];
    FirstSame(c, c', g, g);
    forall k | 1 <= k < |c'| ensures Used(c', k) <= Pow2(k) {
      if k < g {
        FirstSame(c, c', g, k);
        assert Used(c, k) <= Pow2(k);
      } else {
        NotOverAbove(c', g, k);
      }
    }
  }

  // ---- symbols in order of code ----

  // The place of a symbol in the order of codes.
  function Place(b: seq<nat>, sym: nat): nat
    requires sym < |b| && b[sym] <= BMAX
  {
    Before(Counts(b), b[sym]) + Rank(b, sym)
  }

  // v lists the symbols by length, then by value.
  ghost predicate InCodeOrder(b: seq<nat>, v: seq<nat>)
  {
    forall sym :: 0 <= sym < |b| && 1 <= b[sym] <= BMAX ==> Place(b, sym) < |v| && v[Place(b, sym)] == sym
  }

  lemma {:induction false} BeforeMono(c: seq<nat>, k: nat, k': nat)
    requires 1 <= k < k' <= |c|
    ensures Before(c, k) + c[k] <= Before(c, k')
    decreases k'
  {
    if k + 1 < k' { BeforeMono(c, k, k' - 1); }
  }

  lemma {:induction false} BeforeBump(c: seq<nat>, n: nat, k: nat)
    requires n < |c| && k <= |c|
    ensures Before(Bump(c, n), k) == Before(c, k) + (if 1 <= n < k then 1 else 0)
  {
    if k > 1 { BeforeBump(c, n, k - 1); }
  }

  lemma {:induction false} BeforeZero(c: seq<nat>, k: nat)
    requires k <= |c| && (forall j :: 1 <= j < |c| ==> c[j] == 0)
    ensures Before(c, k) == 0
  {
    if k > 1 { BeforeZero(c, k - 1); }
  }

  // All lengths in use and the zero lengths make up the set.
  lemma {:induction false} TotalCount(b: seq<nat>)
    requires forall i :: 0 <= i < |b| ==> b[i] <= BMAX
    ensures Before(Counts(b), BMAX + 1) == |b| - Count(b, 0)
  {
    if b == [] {
      BeforeZero(Counts(b), BMAX + 1);
    } else {
      var p, n := b[..|b| - 1], b[|b| - 1];
      TotalCount(p);
      assert Counts(b) == Bump(Counts(p), n);
      BeforeBump(Counts(p), n, BMAX + 1);
    }
  }

  // The place of a symbol in v is below n and belongs to its length.
  lemma PlaceOf(b: seq<nat>, sym: nat)
    requires sym < |b| && 1 <= b[sym] <= BMAX && (forall i :: 0 <= i < |b| ==> b[i] <= BMAX)
    ensures Place(b, sym) == Before(Counts(b), b[sym]) + Count(b[..sym], b[sym])
    ensures Place(b, sym) < Before(Counts(b), b[sym]) + Counts(b)[b[sym]] <= |b| - Count(b, 0)
    ensures Before(Counts(b), b[sym]) <= Place(b, sym)
  {
    CountTake(b, sym, b[sym]);
    TotalCount(b);
    BeforeMono(Counts(b), b[sym], BMAX + 1);
  }

  lemma PlacesApart(b: seq<nat>, i: nat, j: nat)
    requires i < j < |b| && 1 <= b[i] <= BMAX && 1 <= b[j] <= BMAX && (forall i :: 0 <= i < |b| ==> b[i] <= BMAX)
    ensures Place(b, i) != Place(b, j)
  {
    PlaceOf(b, i);
    PlaceOf(b, j);
    if b[i] == b[j] {
      RankStrict(b, i, j);
    } else if b[i] < b[j] {
      BeforeMono(Counts(b), b[i], b[j]);
    } else {
      BeforeMono(Counts(b), b[j], b[i]);
    }
  }

  lemma CountStep(b: seq<nat>, i: nat, k: nat)
    requires i < |b|
    ensures Count(b[..i + 1], k) == Count(b[..i], k) + (if b[i] == k then 1 else 0)
  {
    assert b[..i + 1][..i] == b[..i];
  }

  // inflate.c:351-363; v0 is whatever the uninitialised array holds.
  method SortValues(b: seq<nat>, c: seq<nat>, g: nat, v0: seq<nat>) returns (v: seq<nat>)
    requires |b| <= N_MAX == |v0| && 1 <= g <= BMAX && c == Counts(b)
    requires forall i :: 0 <= i < |b| ==> b[i] <= g
    ensures |v| == N_MAX && InCodeOrder(b, v)
  {
    hide Place, Before, Count, Counts;
    var x := Offsets(c, g);
    assert forall k :: Count(b[..0], k) == 0 by { NoneYet(b); }
    v := v0;
    var i := 0;
    while i < |b|
      invariant 0 <= i <= |b| && |v| == N_MAX && |x| == BMAX + 1
      invariant forall k :: 1 <= k <= g ==> x[k] == Before(c, k) + Count(b[..i], k)
      invariant forall sym :: 0 <= sym < i && b[sym] != 0 ==> Place(b, sym) < |v| && v[Place(b, sym)] == sym
    {
      var j := b[i];
      forall k | 1 <= k <= g ensures Count(b[..i + 1], k) == Count(b[..i], k) + (if j == k then 1 else 0) {
        CountStep(b, i, k);
      }
      if j != 0 {
        PlaceOf(b, i);
        forall sym | 0 <= sym < i && b[sym] != 0 ensures Place(b, sym) != Place(b, i) { PlacesApart(b, sym, i); }
        v := v[x[j] := i];
        x := x[j := x[j] + 1];
      }
      i := i + 1;
    }
  }

  lemma NoneYet(b: seq<nat>)
    ensures forall k :: Count(b[..0], k) == 0
  {
  }

  method Offsets(c: seq<nat>, g: nat) returns (x: seq<nat>)
    requires |c| == BMAX + 1 && 1 <= g <= BMAX
    ensures |x| == BMAX + 1 && forall k :: 1 <= k <= g ==> x[k] == Before(c, k)
  {
    x := seq(BMAX + 1, _ => 0);
    var j, i := 0, 1;
    while i < g
      invariant 1 <= i <= g && |x| == BMAX + 1 && j == Before(c, i)
      invariant forall k :: 1 <= k <= i ==> x[k] == Before(c, k)
    {
      j := j + c[i];
      x := x[i + 1 := j];
      i := i + 1;
    }
  }

  // ---- the size of a table ----

  // The first code that starts with the w bits of value p has length k.
  ghost predicate Begins(c: seq<nat>, k: nat, w: nat, p: nat)
    requires w < k < |c|
  {
    First(c, k) <= p * Pow2(k - w) < Used(c, k)
  }

  // A table for these w bits takes no more than l bits: the code ends inside it, or just at its
  // end with enough codes of that length to fill it.
  ghost predicate Fits(c: seq<nat>, k: nat, w: nat, p: nat, l: nat)
    requires w < k < |c|
  {
    k - w < l || (k - w == l && (p + 1) * Pow2(l) <= Used(c, k))
  }

  // No table below the first comes out wider than l bits.
  ghost predicate Snug(c: seq<nat>, g: nat, l: nat)
    requires g < |c|
  {
    forall m: nat, k: nat, p: nat ::
      1 <= m && Off(l, m) < k <= g && Begins(c, k, Off(l, m), p) ==> Fits(c, k, Off(l, m), p, l)
  }

  // In a complete set the codes of length k and more fill what the shorter ones leave.
  lemma {:induction false} TailFills(c: seq<nat>, g: nat, k: nat)
    requires Complete(c, g) && 1 <= k <= g
    ensures Before(c, g + 1) - Before(c, k) >= Pow2(k) - First(c, k)
    decreases g - k
  {
    if k < g {
      TailFills(c, g, k + 1);
      assert Used(c, k) <= Pow2(k);
    }
  }

  // The codes left at prefix p, a table of k - |p| bits wide, need that many patterns.
  lemma PatternsLeft(c: seq<nat>, g: nat, cur: seq<bool>, w: nat)
    requires Complete(c, g) && w < |cur| <= g && (forall j :: w <= j < |cur| ==> !cur[j])
    requires First(c, |cur|) <= Be(cur)
    ensures Be(cur) == Be(cur[..w]) * Pow2(|cur| - w)
    ensures (Be(cur[..w]) + 1) * Pow2(|cur| - w) <= Pow2(|cur|)
    ensures Before(c, g + 1) >= Pow2(|cur| - w)
  {
    hide Be, Pow2, First, Before;
    var k := |cur|;
    BeZeros(cur, w);
    BeBound(cur[..w]);
    MulMono(Be(cur[..w]) + 1, Pow2(w), Pow2(k - w));
    Pow2Add(w, k - w);
    TailFills(c, g, k);
    var p, q := Be(cur[..w]), Pow2(k - w);
    MulAddOne(p, q);
  }

  // n patterns of some length, counted in patterns j bits longer.
  ghost function Span(n: nat, j: nat): nat { n * Pow2(j) }

  lemma SpanStep(n: nat, j: nat)
    ensures Span(n, j + 1) == 2 * Span(n, j)
  {
    Twice(Pow2(j), n);
  }

  // inflate.c:387-400: the number of bits j of the new table; a more codes of length k
  // remain after the current one.
  method TableBits(c: seq<nat>, k: nat, a: nat, w: nat, l: nat, g: nat, ghost cur: seq<bool>) returns (j: nat)
    requires Complete(c, g) && |c| == BMAX + 1 && 1 <= l <= g <= BMAX && w < k <= g && |cur| == k
    requires forall j :: w <= j < k ==> !cur[j]
    requires Be(cur) + a + 1 == Used(c, k) && First(c, k) <= Be(cur)
    ensures 1 <= j && w + j <= g && Cap(c, cur[..w], j, l)
    ensures w == 0 ==> j >= l
    ensures j > l <==> !Fits(c, k, w, Be(cur[..w]), l)
  {
    hide Be, Cap, Span, First, Pow2, Before, Complete;
    ghost var n := Be(cur[..w]) + 1;
    SpanHere(c, g, cur, w);
    var z := if g - w > l then l else g - w;
    j := k - w;
    var f := Pow2(j);
    if f > a + 1 {
      if k == g { LastFits(c, g, cur, w, a); }
      f := f - (a + 1);
      var xp := k;
      j := j + 1;
      while j < z
        invariant k - w < j <= g - w && xp == w + j - 1 && (j <= z || j == k - w + 1)
        invariant f > 0 && f == Span(n, j - 1) - Used(c, xp)
        decreases z - j
      {
        FirstStep(c, xp);
        SpanStep(n, j - 1);
        xp := xp + 1;
        f := 2 * f;
        if f <= c[xp] { break; }
        f := f - c[xp];
        j := j + 1;
      }
    }
    assert j >= l || w + j == g || Used(c, w + j) >= Span(n, j);
    CapHolds(c, g, l, w, cur[..w], j);
    if w == 0 { RootWide(c, g, l, cur[..w], j); }
    MulAddOne(Be(cur[..w]), Pow2(k - w));
  }

  lemma SpanHere(c: seq<nat>, g: nat, cur: seq<bool>, w: nat)
    requires Complete(c, g) && w < |cur| <= g && (forall j :: w <= j < |cur| ==> !cur[j])
    requires First(c, |cur|) <= Be(cur)
    ensures Span(Be(cur[..w]) + 1, |cur| - w) == Be(cur) + Pow2(|cur| - w)
    ensures Be(cur) == Be(cur[..w]) * Pow2(|cur| - w)
  {
    hide Be, Pow2;
    PatternsLeft(c, g, cur, w);
    var p, q := Be(cur[..w]), Pow2(|cur| - w);
    MulAddOne(p, q);
  }

  lemma LastFits(c: seq<nat>, g: nat, cur: seq<bool>, w: nat, a: nat)
    requires Complete(c, g) && |cur| == g && w < g && Be(cur) + a + 1 == Used(c, g)
    requires Be(cur) == Be(cur[..w]) * Pow2(g - w)
    ensures Pow2(g - w) <= a + 1
  {
    hide Be, Pow2;
    BeBound(cur[..w]);
    MulMono(Be(cur[..w]) + 1, Pow2(w), Pow2(g - w));
    Pow2Add(w, g - w);
    var p, q := Be(cur[..w]), Pow2(g - w);
    MulAddOne(p, q);
  }

  lemma CapHolds(c: seq<nat>, g: nat, l: nat, w: nat, p: seq<bool>, j: nat)
    requires Complete(c, g) && |p| == w && 1 <= j && w + j <= g
    requires j >= l || w + j == g || Used(c, w + j) >= Span(Be(p) + 1, j)
    ensures Cap(c, p, j, l)
  {
    hide Be, Pow2;
    if w + j == g {
      BeBound(p);
      MulMono(Be(p) + 1, Pow2(w), Pow2(j));
      Pow2Add(w, j);
    }
  }

  lemma RootWide(c: seq<nat>, g: nat, l: nat, p: seq<bool>, j: nat)
    requires Complete(c, g) && l <= g && p == [] && 1 <= j && Cap(c, p, j, l)
    ensures j >= l
  {
    if j < l { RoomBelow(c, j, g); }
  }
}
