// One invariant for the main loop of huft_build, and what each step of the loop does to it.
module BuildLoop {
  import opened Bits
  import opened Canonical
  import opened Tables
  import opened BuildInvariant
  import opened BuildSteps
  import opened BuildHole

  // All codes are placed.
  predicate Over(c: seq<nat>, g: nat, k: nat, r: nat)
    requires g < |c|
  {
    k == g && r == c[g]
  }

  // No table is wide so far: every code that is placed is found.
  ghost predicate Whole(T: Tabs, M: Nodes, cs: CodeSet, c: seq<nat>, g: nat, l: nat, u: seq<int>, nh: nat,
                        cur: seq<bool>, k: nat, r: nat)
    requires g < |c| && k < |c|
  {
    && Links(T, M, l, u, nh, cur) && SnugUpTo(c, g, l, k, r) && (!Over(c, g, k, r) ==> Settled(c, l, nh, cur, r))
    && (nh > 0 ==> |u| > 0 && AllDone(T, M, l, u[0], cs, c, g, k, r))
  }

  // There was a wide table: its last entry is as the memory was.
  ghost predicate Broken(T: Tabs, M: Nodes, c: seq<nat>, g: nat, l: nat, u: seq<int>, nh: nat, cur: seq<bool>, k: nat,
                         r: nat, hole: Hole)
    requires g < |c|
  {
    && !Snug(c, g, l) && Path(T, M, g, l, hole) && Open(c, g, l, hole) && Off(l, |hole.path| - 1) < k
    && nh > 0 && |u| > 0 && hole.path[0] == u[0]
    && (!Over(c, g, k, r) ==> Tracked(l, u, nh, cur, hole))
  }

  // k is the current length, r codes of it are placed, cur is the next code.
  ghost predicate BuildInv(T: Tabs, M: Nodes, cs: CodeSet, c: seq<nat>, g: nat, l: nat, u: seq<int>, x: seq<nat>,
                           nh: nat, cur: seq<bool>, k: nat, r: nat, hole: Option<Hole>)
  {
    && |c| == BMAX + 1 && 1 <= l <= g <= BMAX && Complete(c, g)
    && 1 <= k <= g && r <= c[k] && |cur| == k
    && |u| == BMAX && |x| == BMAX + 1
    && (Be(cur) == First(c, k) + r || Over(c, g, k, r))
    && Levels(T, M, c, g, l, u, x, nh, cur) && Aligned(l, nh, cur)
    && (nh == 0 ==> r == 0 && forall j :: 1 <= j < k ==> c[j] == 0)
    && (hole.None? ==> Whole(T, M, cs, c, g, l, u, nh, cur, k, r))
    && (hole.Some? ==> Broken(T, M, c, g, l, u, nh, cur, k, r, hole.value))
  }

  lemma NothingDone(T: Tabs, M: Nodes, l: nat, root: int, cs: CodeSet, c: seq<nat>, g: nat, k: nat)
    requires 1 <= k < |c| && forall j :: 1 <= j < k ==> c[j] == 0
    ensures AllDone(T, M, l, root, cs, c, g, k, 0)
  {
  }

  lemma Start(T: Tabs, cs: CodeSet, c: seq<nat>, g: nat, l: nat, u: seq<int>, x: seq<nat>, k: nat, cur: seq<bool>)
    requires |c| == BMAX + 1 && 1 <= l <= g <= BMAX && Complete(c, g) && 1 <= k <= g
    requires |u| == BMAX && |x| == BMAX + 1 && forall j :: 1 <= j < k ==> c[j] == 0
    requires |cur| == k && forall j :: 0 <= j < k ==> !cur[j]
    ensures BuildInv(T, map[], cs, c, g, l, u, x, 0, cur, k, 0, None)
  {
    ZerosAreZero(cur);
    NothingBelow(c, k, k);
    SnugStart(c, g, l, k);
  }

  // The hole after a table of tb bits is added.
  function NextHole(hole: Option<Hole>, g: nat, l: nat, u: seq<int>, nh: nat, cur: seq<bool>, q: int, tb: nat,
                    ent: seq<Huft>): Option<Hole>
    requires nh <= |u| && Off(l, nh) <= |cur| && Off(l, nh) <= g && |ent| == Pow2(tb)
  {
    if hole.Some? || nh == 0 || tb <= l then hole else Some(HoleAt(u, nh, cur, g, l, q, ent[Pow2(tb) - 1]))
  }

  // A table for the next level.
  lemma StepLevel(T: Tabs, T': Tabs, M: Nodes, cs: CodeSet, c: seq<nat>, g: nat, l: nat, u: seq<int>, x: seq<nat>,
                  nh: nat, cur: seq<bool>, k: nat, r: nat, hole: Option<Hole>, q: int, tb: nat)
    requires BuildInv(T, M, cs, c, g, l, u, x, nh, cur, k, r, hole) && Be(cur) == First(c, k) + r && r < c[k]
    requires nh < BMAX && Off(l, nh) < k && q !in M && 1 <= tb && Off(l, nh) + tb <= g
    requires Cap(c, cur[..Off(l, nh)], tb, l) && (nh == 0 ==> tb >= l)
    requires tb > l <==> !Fits(c, k, Off(l, nh), Be(cur[..Off(l, nh)]), l)
    requires Grown(T, T', l, u, nh, cur, q, tb)
    ensures q in T' && |T'[q].ent| == Pow2(tb)
    ensures BuildInv(T', M[q := NewNode(cur, l, nh, tb)], cs, c, g, l, u[nh := q], x[nh := Num(cur[..Off(l, nh)])],
            nh + 1, cur, k, r,
                     NextHole(hole, g, l, u, nh, cur, q, tb, T'[q].ent))
  {
    hide Num, Pow2, Be, Cap, Links, Levels, AllDone, Grown, Fits, Settled, SnugUpTo, Path, Open, Tracked, Snug, First;
    hide Complete;
    GrownTop(T, T', l, u, nh, cur, q, tb);
    AddLevels(T, T', M, c, g, l, u, x, nh, cur, q, tb);
    if hole.Some? {
      PathGrown(T, T', M, c, g, l, u, x, nh, cur, q, tb, hole.value);
      TrackLevel(l, u, nh, cur, hole.value, q);
    } else if nh == 0 || tb <= l {
      AddLinks(T, T', M, c, g, l, u, x, nh, cur, q, tb);
      SettledLevel(c, l, nh, cur, r);
      if nh > 0 {
        AddDone(T, T', M, cs, c, g, l, u, x, nh, cur, q, tb, r);
      } else {
        NothingDone(T', M[q := NewNode(cur, l, nh, tb)], l, q, cs, c, g, k);
      }
    } else {
      HolePath(T, T', M, c, g, l, u, x, nh, cur, q, tb);
      HoleOpen(c, g, l, u, nh, cur, q, T'[q].ent[Pow2(tb) - 1]);
      HoleTracked(l, g, u, nh, cur, q, T'[q].ent[Pow2(tb) - 1]);
    }
  }

  // The stack after an increment: popped down to the last level whose prefix did not change.
  ghost predicate Popped(l: nat, nh: nat, cur: seq<bool>, nh': nat)
  {
    && 1 <= nh' <= nh && Off(l, nh' - 1) <= |cur|
    && Inc(cur)[..Off(l, nh' - 1)] == cur[..Off(l, nh' - 1)]
    && (nh' < nh ==> Off(l, nh') <= |cur| && Inc(cur)[..Off(l, nh')] != cur[..Off(l, nh')])
  }

  lemma PoppedAligned(l: nat, nh: nat, cur: seq<bool>, nh': nat)
    requires Popped(l, nh, cur, nh') && |cur| <= Off(l, nh)
    ensures Aligned(l, nh', Inc(cur))
  {
    if nh' < nh { IncCarry(cur, Off(l, nh')); }
  }

  lemma NextValue(c: seq<nat>, g: nat, k: nat, cur: seq<bool>, r: nat)
    requires Complete(c, g) && 1 <= k <= g && |cur| == k && Be(cur) == First(c, k) + r && r < c[k]
    ensures Be(Inc(cur)) == First(c, k) + r + 1 || (k == g && r + 1 == c[g])
  {
    hide Be, Inc;
    if k < g { RoomBelow(c, k, g); }
    if !(k == g && r + 1 == c[g]) {
      assert Used(c, k) <= Pow2(k);
      IncBe(cur);
    }
  }

  // The current code is placed in the table on top, and the next code begins.
  lemma StepCode(T: Tabs, M: Nodes, cs: CodeSet, c: seq<nat>, g: nat, l: nat, u: seq<int>, x: seq<nat>, nh: nat,
                 cur: seq<bool>, k: nat, r: nat, hole: Option<Hole>, ent: seq<Huft>, e: Huft, nh': nat)
    requires BuildInv(T, M, cs, c, g, l, u, x, nh, cur, k, r, hole) && Be(cur) == First(c, k) + r && r < c[k]
    requires 1 <= nh <= BMAX && k <= Off(l, nh) && u[nh - 1] in T && Popped(l, nh, cur, nh')
    requires var w := Off(l, nh - 1);
             w <= k && e.b == k - w && Filled(T[u[nh - 1]].ent, ent, Num(cur[w..]), k - w, e)
    requires Known(cs, c, k, r) ==> IsLeaf(e) && LeafOk(cs, c, k, r, e.e, e.v)
    ensures BuildInv(T[u[nh - 1] := T[u[nh - 1]].(ent := ent)], M, cs, c, g, l, u, x, nh', Inc(cur), k, r + 1, hole)
  {
    hide Num, Pow2, Be, Inc, Low, Cap, Links, Levels, AllDone, LeafOk, Known, Aligned, Settled, SnugUpTo, Path, Open;
    hide Tracked, Snug, Fits, First, Complete;
    var T' := T[u[nh - 1] := T[u[nh - 1]].(ent := ent)];
    PlaceLevels(T, M, c, g, l, u, x, nh, cur, ent);
    KeepLevels(T', M, c, g, l, u, x, nh, cur, nh', Inc(cur));
    PoppedAligned(l, nh, cur, nh');
    NextValue(c, g, k, cur, r);
    if hole.Some? {
      PathPlaced(T, M, c, g, l, u, x, nh, cur, ent, e, hole.value);
      if !Over(c, g, k, r + 1) { TrackCode(l, u, nh, cur, nh', hole.value); }
    } else {
      PlaceCode(T, M, cs, c, g, l, u, x, nh, cur, r, ent, e);
      SnugCode(c, g, l, nh, cur, k, r);
      if !Over(c, g, k, r + 1) { SettledCode(c, l, nh, cur, nh', Inc(cur), r + 1); }
    }
  }

  lemma TrackCode(l: nat, u: seq<int>, nh: nat, cur: seq<bool>, nh': nat, hole: Hole)
    requires Tracked(l, u, nh, cur, hole) && Popped(l, nh, cur, nh') && Be(Inc(cur)) == Be(cur) + 1
    ensures Tracked(l, u, nh', Inc(cur), hole)
  {
    hide Be, Inc, Track;
    forall i | 0 <= i < |hole.path| ensures Track(l, u, nh', Inc(cur), hole, i) {
      KeptTrack(l, u, nh, cur, nh', Inc(cur), hole, i);
    }
  }

  // All codes of length k are placed.
  lemma StepLength(T: Tabs, M: Nodes, cs: CodeSet, c: seq<nat>, g: nat, l: nat, u: seq<int>, x: seq<nat>, nh: nat,
                   cur: seq<bool>, k: nat, hole: Option<Hole>)
    requires k < g < |c| && BuildInv(T, M, cs, c, g, l, u, x, nh, cur, k, c[k], hole)
    ensures BuildInv(T, M, cs, c, g, l, u, x, nh, cur + [false], k + 1, 0, hole)
    ensures Num(cur + [false]) == Num(cur)
  {
    hide Num, Pow2, Be, Cap, Links, Levels, AllDone, Settled, SnugUpTo, Path, Open, Tracked, Snug, Complete;
    var cur' := cur + [false];
    NumPad(cur);
    BeAppend(cur, [false]);
    BeOneFalse();
    if nh > 0 {
      LevelsFit(T, M, c, g, l, u, x, nh, cur);
      KeepLevels(T, M, c, g, l, u, x, nh, cur, nh, cur');
    } else {
      NoLevels(T, M, c, g, l, u, x, cur, cur');
    }
    if hole.Some? {
      TrackLength(l, u, nh, cur, hole.value);
    } else {
      LevelOffs(T, M, c, g, l, u, x, nh, cur);
      SettledLength(c, l, nh, cur, c[k]);
      SnugLength(c, g, l, k);
      if nh > 0 { NextLength(T, M, l, u[0], cs, c, g, k); }
    }
  }

  lemma LevelOffs(T: Tabs, M: Nodes, c: seq<nat>, g: nat, l: nat, u: seq<int>, x: seq<nat>, nh: nat, cur: seq<bool>)
    requires Levels(T, M, c, g, l, u, x, nh, cur)
    ensures forall m :: 1 <= m < nh ==> Off(l, m) < |cur|
  {
    forall m | 1 <= m < nh ensures Off(l, m) < |cur| { assert LevelOk(T, M, c, g, l, u, x, m, cur); }
  }

  lemma BeOneFalse()
    ensures Be([false]) == 0 && Pow2(1) == 2
  {
    assert [false][..0] == [];
  }

  lemma LevelsFit(T: Tabs, M: Nodes, c: seq<nat>, g: nat, l: nat, u: seq<int>, x: seq<nat>, nh: nat, cur: seq<bool>)
    requires Levels(T, M, c, g, l, u, x, nh, cur) && nh > 0
    ensures Off(l, nh - 1) < |cur| && forall w :: 0 <= w <= |cur| ==> (cur + [false])[..w] == cur[..w]
  {
    assert LevelOk(T, M, c, g, l, u, x, nh - 1, cur);
  }

  lemma NoLevels(T: Tabs, M: Nodes, c: seq<nat>, g: nat, l: nat, u: seq<int>, x: seq<nat>, cur: seq<bool>,
                 cur': seq<bool>)
    requires Levels(T, M, c, g, l, u, x, 0, cur)
    ensures Levels(T, M, c, g, l, u, x, 0, cur') && Links(T, M, l, u, 0, cur')
  {
  }

  // ---- what the finished tables do ----

  // The walk for bs ends at the first table.
  ghost predicate Direct(T: Tabs, t: int, lb: nat, bs: seq<bool>)
  {
    t in T && lb <= |bs| && Num(bs[..lb]) < |T[t].ent| && IsLeaf(T[t].ent[Num(bs[..lb])])
  }

  ghost predicate Finds(T: Tabs, t: int, lb: nat, cs: CodeSet, sym: nat, bs: seq<bool>)
    requires sym < |cs.lens|
  {
    var x := Lookup(T, t, lb, bs);
    && x.Some? && x.value.used == cs.lens[sym] && Means(cs, sym, x.value.e, x.value.v)
    && (lb == |bs| ==> Direct(T, t, lb, bs))
  }

  // bs starts with the code of sym.
  ghost predicate StartsWith(lens: seq<nat>, sym: nat, bs: seq<bool>)
  {
    sym < |lens| && 1 <= lens[sym] <= |bs| && IsCode(lens, sym, bs[..lens[sym]])
  }

  // Looking up any string that starts with a code finds its symbol and drops its length.
  ghost predicate Decodes(T: Tabs, t: int, lb: nat, cs: CodeSet, g: nat)
  {
    forall sym: nat, bs :: |bs| == g && StartsWith(cs.lens, sym, bs) ==> Finds(T, t, lb, cs, sym, bs)
  }

  // With every length in use, looking up a string that starts with no code finds e == 99.
  ghost predicate Rejects(T: Tabs, t: int, lb: nat, cs: CodeSet, g: nat)
  {
    (forall i :: 0 <= i < |cs.lens| ==> cs.lens[i] != 0) ==>
      forall bs :: |bs| == g && (forall sym: nat :: !StartsWith(cs.lens, sym, bs)) ==> FindsNone(T, t, lb, bs)
  }

  ghost predicate FindsNone(T: Tabs, t: int, lb: nat, bs: seq<bool>)
  {
    Lookup(T, t, lb, bs).Some? && Lookup(T, t, lb, bs).value.e == 99
  }

  // c is the counts of lens with y more codes of the longest length g.
  ghost predicate Padded(lens: seq<nat>, c: seq<nat>, g: nat)
  {
    && 1 <= g <= BMAX && |c| == BMAX + 1
    && (forall i :: 0 <= i < |lens| ==> lens[i] <= g)
    && (forall j :: 1 <= j < g ==> c[j] == Count(lens, j))
    && c[g] >= Count(lens, g)
  }

  lemma PaddedFirst(lens: seq<nat>, c: seq<nat>, g: nat, k: nat)
    requires Padded(lens, c, g) && 1 <= k <= g
    ensures First(c, k) == First(Counts(lens), k) && Before(c, k) == Before(Counts(lens), k)
    ensures Count(lens, k) <= c[k]
  {
    hide Count, First, Before;
    FirstSame(c, Counts(lens), g, k);
  }

  lemma ReachedIsFound(T: Tabs, M: Nodes, l: nat, root: int, cs: CodeSet, c: seq<nat>, kk: nat, bs: seq<bool>)
    requires Hit(c, bs, kk) && Reaches(T, M, l, root, cs, c, kk, bs) && root in M && M[root].lb == l
    requires Known(cs, c, kk, Be(bs[..kk]) - First(c, kk))
    ensures var x := Lookup(T, root, l, bs);
            && x.Some? && x.value.used == kk
            && LeafOk(cs, c, kk, Be(bs[..kk]) - First(c, kk), x.value.e, x.value.v)
            && (l == |bs| ==> Direct(T, root, l, bs))
  {
    hide Num, Be, LeafOk, Known;
    TraceUses(T, M, l, root, bs, 0);
    TraceIsLookup(T, M, l, root, bs, 0);
    assert bs[0..] == bs;
  }

  lemma DoneDecodes(T: Tabs, M: Nodes, l: nat, root: int, cs: CodeSet, c: seq<nat>, g: nat)
    requires Padded(cs.lens, c, g) && AllDone(T, M, l, root, cs, c, g, g, c[g]) && root in M && M[root].lb == l
    ensures Decodes(T, root, l, cs, g)
  {
    hide Num, Be, Count, First, Before, Lookup, Direct;
    forall sym: nat, bs | |bs| == g && StartsWith(cs.lens, sym, bs) ensures Finds(T, root, l, cs, sym, bs) {
      var kk := cs.lens[sym];
      PaddedFirst(cs.lens, c, g, kk);
      CountTake(cs.lens, sym, kk);
      assert DoneHit(c, g, c[g], bs, kk);
      ReachedIsFound(T, M, l, root, cs, c, kk, bs);
    }
  }

  // A string that starts with no code has run past the last symbol.
  lemma PastTheEnd(cs: CodeSet, c: seq<nat>, g: nat, bs: seq<bool>, k: nat)
    requires Padded(cs.lens, c, g) && |bs| == g && 1 <= k <= g && First(c, k) <= Be(bs[..k]) < Used(c, k)
    requires (forall i :: 0 <= i < |cs.lens| ==> cs.lens[i] != 0) && (forall sym: nat :: !StartsWith(cs.lens, sym, bs))
    ensures Before(c, k) + (Be(bs[..k]) - First(c, k)) >= |cs.lens|
  {
    hide Be, First, Before, Count;
    var r := Be(bs[..k]) - First(c, k);
    PaddedFirst(cs.lens, c, g, k);
    if r < Count(cs.lens, k) { RealCode(cs.lens, bs, k, r); }
    AllCounted(cs.lens, g);
  }

  lemma RealCode(lens: seq<nat>, bs: seq<bool>, k: nat, r: nat)
    requires 1 <= k <= BMAX && k <= |bs| && Be(bs[..k]) == First(Counts(lens), k) + r && r < Count(lens, k)
    ensures exists sym: nat :: StartsWith(lens, sym, bs)
  {
    hide Be, First, Count;
    var sym := RankOnto(lens, k, r);
    assert StartsWith(lens, sym, bs);
  }

  lemma AllCounted(lens: seq<nat>, g: nat)
    requires 1 <= g <= BMAX && (forall i :: 0 <= i < |lens| ==> 1 <= lens[i] <= g)
    ensures Before(Counts(lens), g) + Count(lens, g) == |lens|
  {
    TotalCount(lens);
    NoZeros(lens);
    forall j | g < j <= BMAX ensures Counts(lens)[j] == 0 { CountAbove(lens, g, j); }
    BeforeFlat(Counts(lens), g + 1, BMAX + 1);
  }

  lemma {:induction false} NoZeros(lens: seq<nat>)
    requires forall i :: 0 <= i < |lens| ==> 1 <= lens[i]
    ensures Count(lens, 0) == 0
  {
    if lens != [] { NoZeros(lens[..|lens| - 1]); }
  }

  lemma {:induction false} BeforeFlat(c: seq<nat>, a: nat, b: nat)
    requires 1 <= a <= b <= |c| && (forall j :: a <= j < b ==> c[j] == 0)
    ensures Before(c, a) == Before(c, b)
    decreases b
  {
    if a < b { BeforeFlat(c, a, b - 1); }
  }

  lemma DoneRejects(T: Tabs, M: Nodes, l: nat, root: int, cs: CodeSet, c: seq<nat>, g: nat)
    requires Padded(cs.lens, c, g) && Complete(c, g)
    requires AllDone(T, M, l, root, cs, c, g, g, c[g]) && root in M && M[root].lb == l
    ensures Rejects(T, root, l, cs, g)
  {
    hide Num, Be, Count, First, Before, Lookup, Complete;
    if forall i :: 0 <= i < |cs.lens| ==> cs.lens[i] != 0 {
      forall bs | |bs| == g && (forall sym: nat :: !StartsWith(cs.lens, sym, bs)) ensures FindsNone(T, root, l, bs) {
        var k := SlotOf(c, g, bs);
        assert DoneHit(c, g, c[g], bs, k);
        PastTheEnd(cs, c, g, bs, k);
        ReachedIsFound(T, M, l, root, cs, c, k, bs);
      }
    }
  }
}
