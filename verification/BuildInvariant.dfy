// What holds while huft_build of loader/src/inflate.c works through the codes in
// canonical order: the table stack follows the current code, and every code already
// placed is found by a walk from the first table.
module BuildInvariant {
  import opened Bits
  import opened Canonical
  import opened Tables

  // Bits before the table at level m.
  function Off(l: nat, m: nat): nat
  {
    if m == 0 then 0 else Off(l, m - 1) + l
  }

  lemma {:induction false} OffMono(l: nat, a: nat, b: nat)
    requires a <= b
    ensures Off(l, a) <= Off(l, b)
    ensures a < b ==> Off(l, a) + l <= Off(l, b)
    ensures l >= 1 ==> a <= Off(l, a)
    decreases b
  {
    if a < b { OffMono(l, a, b - 1); } else if a > 0 { OffMono(l, a - 1, a - 1); }
  }

  // A code set and its meaning: symbols below s stand for themselves, the others for
  // a base value d and extra bits e.
  datatype CodeSet = CodeSet(lens: seq<nat>, s: nat, d: seq<nat>, e: seq<nat>)

  ghost predicate Meaningful(cs: CodeSet)
  {
    && |cs.lens| <= cs.s + |cs.d| && |cs.lens| <= cs.s + |cs.e|
    && (forall i :: 0 <= i < |cs.e| ==> cs.e[i] <= 16 || cs.e[i] == 99)
    && (forall i :: 0 <= i < |cs.lens| ==> cs.lens[i] <= BMAX)
  }

  predicate Means(cs: CodeSet, sym: nat, e: nat, v: int)
  {
    if sym < cs.s then e == (if sym < 256 then 16 else 15) && v == sym
    else sym - cs.s < |cs.d| && sym - cs.s < |cs.e| && e == cs.e[sym - cs.s] && v == cs.d[sym - cs.s]
  }

  // Codes of length less than k.
  function Before(cnt: seq<nat>, k: nat): nat
    requires k <= |cnt|
  {
    if k <= 1 then 0 else Before(cnt, k - 1) + cnt[k - 1]
  }

  // The leaf for the code of length k and rank r: its symbol's meaning, or e == 99
  // once all n symbols are used up.
  ghost predicate LeafOk(cs: CodeSet, cnt: seq<nat>, k: nat, r: nat, e: nat, v: int)
    requires k <= |cnt|
  {
    && (forall sym :: 0 <= sym < |cs.lens| && cs.lens[sym] == k && Rank(cs.lens, sym) == r ==> Means(cs, sym, e, v))
    && (Before(cnt, k) + r >= |cs.lens| ==> e == 99)
  }

  // bs starts with the code of length k in the canonical order of cnt.
  ghost predicate Hit(cnt: seq<nat>, bs: seq<bool>, k: nat)
  {
    1 <= k < |cnt| && k <= |bs| && First(cnt, k) <= Be(bs[..k]) < Used(cnt, k)
  }

  // ... and that code comes before the code of length k and rank r.
  ghost predicate DoneHit(cnt: seq<nat>, k: nat, r: nat, bs: seq<bool>, kk: nat)
    requires k < |cnt|
  {
    Hit(cnt, bs, kk) && (kk < k || (kk == k && Be(bs[..kk]) < First(cnt, k) + r))
  }

  // A code that stands for a symbol, or for none once all n symbols are used up.  (In an
  // incomplete set with unused symbols, huft_build reads v[] before it is written.)
  ghost predicate Known(cs: CodeSet, cnt: seq<nat>, k: nat, r: nat)
    requires k <= |cnt|
  {
    r < Count(cs.lens, k) || Before(cnt, k) + r >= |cs.lens|
  }

  ghost predicate Reaches(T: Tabs, M: Nodes, l: nat, root: int, cs: CodeSet, cnt: seq<nat>, kk: nat, bs: seq<bool>)
    requires Hit(cnt, bs, kk)
  {
    var r := Be(bs[..kk]) - First(cnt, kk);
    Known(cs, cnt, kk, r) ==>
      var x := Trace(T, M, l, root, bs, 0);
      x.Some? && x.value.used == kk && LeafOk(cs, cnt, kk, r, x.value.e, x.value.v)
  }

  // Every code before (k, r) is found.
  ghost predicate AllDone(T: Tabs, M: Nodes, l: nat, root: int, cs: CodeSet, cnt: seq<nat>, g: nat, k: nat, r: nat)
    requires k < |cnt|
  {
    forall kk, bs :: |bs| == g && DoneHit(cnt, k, r, bs, kk) ==> Reaches(T, M, l, root, cs, cnt, kk, bs)
  }

  // ---- the table stack ----

  // A table of tb bits for prefix p takes every code that starts with p, or is l bits wide.
  ghost predicate Cap(cnt: seq<nat>, p: seq<bool>, tb: nat, l: nat)
  {
    tb >= l || (1 <= |p| + tb < |cnt| && Used(cnt, |p| + tb) >= (Be(p) + 1) * Pow2(tb))
  }

  ghost predicate LevelOk(T: Tabs, M: Nodes, cnt: seq<nat>, g: nat, l: nat, u: seq<int>, x: seq<nat>, m: nat,
                          cur: seq<bool>)
    requires m < |u| && m < |x|
  {
    var w, t := Off(l, m), u[m];
    && w < |cur| && t in T && t in M
    && M[t].prefix == cur[..w] && x[m] == Num(cur[..w])
    && |T[t].ent| == Pow2(M[t].tb) && w + M[t].tb <= g
    && M[t].lb == (if m == 0 then l else M[t].tb)
    && (m == 0 ==> M[t].tb >= l)
    && Cap(cnt, cur[..w], M[t].tb, l)
  }

  ghost predicate Levels(T: Tabs, M: Nodes, cnt: seq<nat>, g: nat, l: nat, u: seq<int>, x: seq<nat>, nh: nat,
                         cur: seq<bool>)
  {
    && nh <= |u| && nh <= |x|
    && (forall m :: 0 <= m < nh ==> LevelOk(T, M, cnt, g, l, u, x, m, cur))
  }

  ghost predicate LinkOk(T: Tabs, M: Nodes, l: nat, u: seq<int>, m: nat, cur: seq<bool>)
    requires m + 1 < |u|
  {
    && u[m] in T && u[m] in M && u[m + 1] in M && M[u[m]].lb == l && Off(l, m + 1) <= |cur|
    && Off(l, m) <= Off(l, m + 1)
    && 1 <= M[u[m + 1]].lb <= 16
    && var j := Num(cur[Off(l, m)..Off(l, m + 1)]);
    && j < |T[u[m]].ent|
    && T[u[m]].ent[j] == Huft(16 + M[u[m + 1]].lb, l, u[m + 1])
  }

  // Each table on the stack is reached from the one below it.
  ghost predicate Links(T: Tabs, M: Nodes, l: nat, u: seq<int>, nh: nat, cur: seq<bool>)
  {
    && nh <= |u|
    && (forall m :: 0 <= m && m + 1 < nh ==> LinkOk(T, M, l, u, m, cur))
    && (forall m :: 1 <= m < nh ==> u[m] in M && M[u[m]].tb <= l)
  }

  // Nothing beyond the next level has been started.
  ghost predicate Aligned(l: nat, nh: nat, cur: seq<bool>)
  {
    forall j :: Off(l, nh) <= j < |cur| ==> !cur[j]
  }

  // ---- order ----

  // A string that starts like the current code, as far as the current code is not
  // zeros, does not start with an earlier code.
  lemma NotDone(cnt: seq<nat>, k: nat, r: nat, cur: seq<bool>, pl: nat, bs: seq<bool>, kk: nat)
    requires k < |cnt| && |cur| == k <= |bs| && Be(cur) == First(cnt, k) + r
    requires pl <= k && (forall j :: pl <= j < k ==> !cur[j])
    requires DoneHit(cnt, k, r, bs, kk)
    ensures bs[..pl] != cur[..pl]
  {
    hide Be, Pow2;
    var B := bs[..k];
    assert B[..pl] == bs[..pl] && B[..kk] == bs[..kk];
    BeSplit(B, pl);
    BeSplit(B, kk);
    BeZeros(cur, pl);
    DoneBelow(cnt, k, r, bs, kk);
  }

  lemma BeZeros(cur: seq<bool>, pl: nat)
    requires pl <= |cur| && (forall j :: pl <= j < |cur| ==> !cur[j])
    ensures Be(cur) == Be(cur[..pl]) * Pow2(|cur| - pl)
  {
    assert cur == cur[..pl] + cur[pl..];
    BeAppend(cur[..pl], cur[pl..]);
    ZerosAreZero(cur[pl..]);
  }

  lemma DoneBelow(cnt: seq<nat>, k: nat, r: nat, bs: seq<bool>, kk: nat)
    requires k < |cnt| && DoneHit(cnt, k, r, bs, kk)
    ensures (Be(bs[..kk]) + 1) * Pow2(k - kk) <= First(cnt, k) + r
  {
    hide Be;
    if kk < k {
      FirstGrows(cnt, kk, k);
      MulMono(Be(bs[..kk]) + 1, Used(cnt, kk), Pow2(k - kk));
    }
  }

  // A table narrower than l bits never sees a code longer than it can hold.
  lemma CapBound(cnt: seq<nat>, cur: seq<bool>, w: nat, tb: nat, l: nat)
    requires w <= |cur| < |cnt| && w + tb < |cur| && First(cnt, |cur|) <= Be(cur) && Cap(cnt, cur[..w], tb, l)
    ensures tb >= l
  {
    hide Be, Pow2;
    if tb < l {
      var k, d := |cur|, w + tb;
      FirstGrows(cnt, d, k);
      MulMono((Be(cur[..w]) + 1) * Pow2(tb), Used(cnt, d), Pow2(k - d));
      BeSplit(cur, w);
      Pow2Add(tb, k - d);
      MulAssoc(Be(cur[..w]) + 1, Pow2(tb), Pow2(k - d));
      assert false;
    }
  }

  lemma MulAssoc(a: nat, b: nat, c: nat)
    ensures (a * b) * c == a * (b * c)
  {
  }

  // ---- placing a code in the table on top of the stack ----

  // The lookup bits of the top table cover the current code, and never leave g bits.
  lemma PlaceFits(T: Tabs, M: Nodes, cnt: seq<nat>, g: nat, l: nat, u: seq<int>, x: seq<nat>, nh: nat, cur: seq<bool>)
    requires Levels(T, M, cnt, g, l, u, x, nh, cur) && 1 <= nh && 1 <= l <= g
    requires |cur| < |cnt| && |cur| <= Off(l, nh) && First(cnt, |cur|) <= Be(cur)
    ensures u[nh - 1] in T && u[nh - 1] in M
    ensures var w, n := Off(l, nh - 1), M[u[nh - 1]];
            && w <= |cur| && n.prefix == cur[..w] && |n.prefix| == w < |cur| <= w + n.lb <= g
            && n.lb <= n.tb && |cur| <= w + n.tb && |T[u[nh - 1]].ent| == Pow2(n.tb)
  {
    assert LevelOk(T, M, cnt, g, l, u, x, nh - 1, cur);
    var w, n := Off(l, nh - 1), M[u[nh - 1]];
    if w + n.tb < |cur| { CapBound(cnt, cur, w, n.tb, l); }
  }

  // The entries whose low n bits are those of the code are overwritten.
  ghost predicate Filled(was: seq<Huft>, ent: seq<Huft>, start: nat, n: nat, r: Huft)
  {
    && |ent| == |was|
    && forall j :: 0 <= j < |was| ==> ent[j] == if Low(j, n) == start then r else was[j]
  }

  lemma SamePrefixNum(a: seq<bool>, b: seq<bool>, n: nat)
    requires |b| == n <= |a|
    ensures Low(Num(a), n) == Num(b) <==> a[..n] == b
  {
    hide Num, Pow2, Low;
    NumSplit(a, n);
    if Num(a[..n]) == Num(b) { NumInjective(a[..n], b); }
  }

  lemma PrefixParts(bs: seq<bool>, code: seq<bool>, w: nat)
    requires w <= |code| <= |bs|
    ensures bs[..|code|] == code <==> bs[..w] == code[..w] && bs[w..|code|] == code[w..]
  {
    var k := |code|;
    assert bs[..k] == bs[..w] + bs[w..k] && code == code[..w] + code[w..];
    assert bs[..w] == bs[..k][..w] && bs[w..k] == bs[..k][w..];
  }

  // The entry that a string starting with code looks at is one of those overwritten, and conversely.
  lemma FilledIndex(n: Node, code: seq<bool>, bs: seq<bool>)
    requires Serves(n, bs) && |n.prefix| <= |code| <= |n.prefix| + n.lb && n.prefix == code[..|n.prefix|]
    ensures var w := |n.prefix|;
            Low(Index(n, bs), |code| - w) == Num(code[w..]) <==> bs[..|code|] == code
  {
    hide Num, Pow2, Low;
    var w, k := |n.prefix|, |code|;
    IndexOfCode(bs, code, w, n.lb);
  }

  lemma IndexOfCode(bs: seq<bool>, code: seq<bool>, w: nat, n: nat)
    requires w <= |code| <= w + n <= |bs| && bs[..w] == code[..w]
    ensures Low(Num(bs[w..w + n]), |code| - w) == Num(code[w..]) <==> bs[..|code|] == code
  {
    hide Num, Pow2, Low;
    SliceTake(bs, w, w + n, |code| - w);
    SamePrefixNum(bs[w..w + n], code[w..], |code| - w);
    CodeAfter(bs, code, w);
  }

  lemma CodeAfter(bs: seq<bool>, code: seq<bool>, w: nat)
    requires w <= |code| <= |bs| && bs[..w] == code[..w]
    ensures bs[w..w + (|code| - w)] == code[w..] <==> bs[..|code|] == code
  {
    PrefixParts(bs, code, w);
  }

  lemma PlaceSame(T: Tabs, M: Nodes, q: int, ent: seq<Huft>, e: Huft, cnt: seq<nat>, k: nat, r: nat, cur: seq<bool>,
                  bs: seq<bool>, kk: nat)
    requires q in T && q in M && k < |cnt| && |cur| == k <= |bs| && Be(cur) == First(cnt, k) + r
    requires |M[q].prefix| <= k <= |M[q].prefix| + M[q].lb && M[q].prefix == cur[..|M[q].prefix|]
    requires Filled(T[q].ent, ent, Num(cur[|M[q].prefix|..]), k - |M[q].prefix|, e)
    requires DoneHit(cnt, k, r, bs, kk)
    ensures SameFor(T, M, T[q := T[q].(ent := ent)], M, bs)
  {
    hide Be, Num, Pow2, DoneHit;
    if Serves(M[q], bs) {
      FilledIndex(M[q], cur, bs);
      NotDone(cnt, k, r, cur, k, bs, kk);
      assert cur[..k] == cur;
    }
  }

  // From any level of the stack, the walk of a string that starts with the current code
  // ends at the entry written for it.
  lemma {:induction false} WalkDown(T: Tabs, M: Nodes, cnt: seq<nat>, g: nat, l: nat, u: seq<int>, x: seq<nat>,
                                    nh: nat, cur: seq<bool>, m: nat, bs: seq<bool>, e: Huft)
    requires Levels(T, M, cnt, g, l, u, x, nh, cur) && Links(T, M, l, u, nh, cur) && m < nh && 1 <= l
    requires |bs| == g && |cur| <= g && bs[..|cur|] == cur && IsLeaf(e)
    requires u[nh - 1] in T && u[nh - 1] in M
    requires var w, n := Off(l, nh - 1), M[u[nh - 1]];
             && |n.prefix| == w && w + e.b == |cur| && e.b <= n.lb && Serves(n, bs) && Index(n, bs) < |T[u[nh - 1]].ent|
             && T[u[nh - 1]].ent[Index(n, bs)] == e
    ensures Off(l, m) <= g && Trace(T, M, l, u[m], bs, Off(l, m)) == Some(Leaf(e.e, e.v, |cur|))
    decreases nh - m
  {
    hide Num, Pow2, Low, Cap, Trace, Off;
    assert LevelOk(T, M, cnt, g, l, u, x, m, cur);
    if m < nh - 1 {
      assert LinkOk(T, M, l, u, m, cur);
      WalkDown(T, M, cnt, g, l, u, x, nh, cur, m + 1, bs, e);
      assert LevelOk(T, M, cnt, g, l, u, x, m + 1, cur);
      var w := Off(l, m);
      OffNext(l, m);
      SliceOfPrefix(cur, bs, w, l);
      TraceLink(T, M, l, u[m], u[m + 1], bs, w);
    } else {
      TraceLeaf(T, M, l, u[m], bs, Off(l, m), e);
    }
  }

  lemma OffNext(l: nat, m: nat)
    ensures Off(l, m + 1) == Off(l, m) + l
  {
    MulAddOne(m, l);
  }

  lemma SliceOfPrefix(cur: seq<bool>, bs: seq<bool>, w: nat, l: nat)
    requires w + l <= |cur| <= |bs| && bs[..|cur|] == cur
    ensures cur[..w] == bs[..w] && bs[w..w + l] == cur[w..w + l]
  {
    assert bs[..|cur|][..w] == bs[..w];
    forall i | w <= i < w + l ensures bs[i] == cur[i] { assert bs[..|cur|][i] == bs[i]; }
  }

  // One step of a walk: an entry that ends it, and one that leads to the next table.
  lemma TraceLeaf(T: Tabs, M: Nodes, l: nat, t: int, bs: seq<bool>, w: nat, e: Huft)
    requires w <= |bs| && t in T && t in M && |M[t].prefix| == w && Serves(M[t], bs) && Index(M[t], bs) < |T[t].ent|
    requires T[t].ent[Index(M[t], bs)] == e && IsLeaf(e) && e.b <= M[t].lb
    ensures Trace(T, M, l, t, bs, w) == Some(Leaf(e.e, e.v, w + e.b))
  {
    hide Num;
  }

  lemma TraceLink(T: Tabs, M: Nodes, l: nat, t: int, q: int, bs: seq<bool>, w: nat)
    requires 1 <= l && w + l <= |bs| && t in T && t in M && q in M && M[t].lb == l && M[t].prefix == bs[..w]
    requires Num(bs[w..w + l]) < |T[t].ent| && T[t].ent[Num(bs[w..w + l])] == Huft(16 + M[q].lb, l, q)
    requires 1 <= M[q].lb <= 16
    ensures Trace(T, M, l, t, bs, w) == Trace(T, M, l, q, bs, w + l)
  {
    hide Num;
  }

  // The stack does not mention the entries of its tables, except where they link.
  lemma PlaceLevels(T: Tabs, M: Nodes, cnt: seq<nat>, g: nat, l: nat, u: seq<int>, x: seq<nat>, nh: nat,
                    cur: seq<bool>, ent: seq<Huft>)
    requires Levels(T, M, cnt, g, l, u, x, nh, cur) && 1 <= nh && 1 <= l
    requires u[nh - 1] in T && |ent| == |T[u[nh - 1]].ent|
    ensures var T' := T[u[nh - 1] := T[u[nh - 1]].(ent := ent)];
            && Levels(T', M, cnt, g, l, u, x, nh, cur)
            && (Links(T, M, l, u, nh, cur) ==> Links(T', M, l, u, nh, cur))
  {
    hide Num, Pow2, Low, Cap;
    var q := u[nh - 1];
    var T' := T[q := T[q].(ent := ent)];
    forall m | 0 <= m < nh ensures LevelOk(T', M, cnt, g, l, u, x, m, cur) {
      assert LevelOk(T, M, cnt, g, l, u, x, m, cur);
    }
    if Links(T, M, l, u, nh, cur) {
      forall m | 0 <= m && m + 1 < nh ensures LinkOk(T', M, l, u, m, cur) {
        assert LinkOk(T, M, l, u, m, cur);
        assert LevelOk(T, M, cnt, g, l, u, x, m, cur) && LevelOk(T, M, cnt, g, l, u, x, nh - 1, cur);
        OffMono(l, m, nh - 1);
        assert u[m] != q;
      }
    }
  }

  lemma PlaceCode(T: Tabs, M: Nodes, cs: CodeSet, cnt: seq<nat>, g: nat, l: nat, u: seq<int>, x: seq<nat>, nh: nat,
                  cur: seq<bool>, r: nat, ent: seq<Huft>, e: Huft)
    requires Levels(T, M, cnt, g, l, u, x, nh, cur) && Links(T, M, l, u, nh, cur) && 1 <= nh <= |u|
             && 1 <= l <= g < |cnt|
    requires |cur| <= g && |cur| <= Off(l, nh) && Be(cur) == First(cnt, |cur|) + r && r < cnt[|cur|]
    requires u[nh - 1] in T
    requires var w := Off(l, nh - 1);
             && w <= |cur| && e.b == |cur| - w
             && Filled(T[u[nh - 1]].ent, ent, Num(cur[w..]), |cur| - w, e)
    requires Known(cs, cnt, |cur|, r) ==> IsLeaf(e) && LeafOk(cs, cnt, |cur|, r, e.e, e.v)
    requires AllDone(T, M, l, u[0], cs, cnt, g, |cur|, r)
    ensures AllDone(T[u[nh - 1] := T[u[nh - 1]].(ent := ent)], M, l, u[0], cs, cnt, g, |cur|, r + 1)
  {
    hide Num, Pow2, Low, Cap, Be, LeafOk, Known, Links, Levels;
    var k, q := |cur|, u[nh - 1];
    var T' := T[q := T[q].(ent := ent)];
    PlaceFits(T, M, cnt, g, l, u, x, nh, cur);
    PlaceLevels(T, M, cnt, g, l, u, x, nh, cur, ent);
    forall kk, bs | |bs| == g && DoneHit(cnt, k, r + 1, bs, kk) ensures Reaches(T', M, l, u[0], cs, cnt, kk, bs) {
      if DoneHit(cnt, k, r, bs, kk) {
        assert Reaches(T, M, l, u[0], cs, cnt, kk, bs);
        PlaceSame(T, M, q, ent, e, cnt, k, r, cur, bs, kk);
        if Known(cs, cnt, kk, Be(bs[..kk]) - First(cnt, kk)) { TraceFrame(T, M, T', M, l, u[0], bs, 0); }
      } else {
        BeInjective(bs[..k], cur);
        if Known(cs, cnt, k, r) {
          PlaceIndex(T, M[q], q, cur, bs, ent, e);
          WalkDown(T', M, cnt, g, l, u, x, nh, cur, 0, bs, e);
        }
      }
    }
  }

  lemma PlaceIndex(T: Tabs, n: Node, q: int, cur: seq<bool>, bs: seq<bool>, ent: seq<Huft>, e: Huft)
    requires q in T && |n.prefix| < |cur| <= |n.prefix| + n.lb <= |bs| && n.prefix == cur[..|n.prefix|] && n.lb <= n.tb
    requires |T[q].ent| == Pow2(n.tb) && bs[..|cur|] == cur
    requires Filled(T[q].ent, ent, Num(cur[|n.prefix|..]), |cur| - |n.prefix|, e)
    ensures Serves(n, bs) && Index(n, bs) < |ent| && ent[Index(n, bs)] == e
  {
    hide Num, Pow2, Low;
    assert bs[..|n.prefix|] == bs[..|cur|][..|n.prefix|];
    FilledIndex(n, cur, bs);
    NumBound(bs[|n.prefix|..|n.prefix| + n.lb]);
    Pow2Mono(n.lb, n.tb);
  }

  // ---- starting the table of the next level ----

  // T' is T with a new table q, linked from the table on top of the stack if there is one.
  ghost predicate Grown(T: Tabs, T': Tabs, l: nat, u: seq<int>, nh: nat, cur: seq<bool>, q: int, tb: nat)
  {
    && nh <= |u| && Off(l, nh) <= |cur| && q !in T && q in T' && |T'[q].ent| == Pow2(tb)
    && (forall t :: t in T ==> t in T')
    && (forall t :: t in T && (nh == 0 || t != u[nh - 1]) ==> T'[t].ent == T[t].ent)
    && (nh > 0 && u[nh - 1] in T ==>
          && Off(l, nh - 1) <= Off(l, nh)
          && var j := Num(cur[Off(l, nh - 1)..Off(l, nh)]);
          && j < |T[u[nh - 1]].ent|
          && T'[u[nh - 1]].ent == T[u[nh - 1]].ent[j := Huft(16 + tb, l, q)])
  }

  function NewNode(cur: seq<bool>, l: nat, nh: nat, tb: nat): Node
    requires Off(l, nh) <= |cur|
  {
    Node(cur[..Off(l, nh)], if nh == 0 then l else tb, tb)
  }

  // The table under the new one is l bits wide or wider.
  lemma ParentWide(T: Tabs, M: Nodes, cnt: seq<nat>, g: nat, l: nat, u: seq<int>, x: seq<nat>, nh: nat, cur: seq<bool>)
    requires Levels(T, M, cnt, g, l, u, x, nh, cur) && 1 <= nh && 1 <= l
    requires Off(l, nh) < |cur| < |cnt| && First(cnt, |cur|) <= Be(cur)
    ensures u[nh - 1] in T && u[nh - 1] in M && M[u[nh - 1]].tb >= l
    ensures Num(cur[Off(l, nh - 1)..Off(l, nh)]) < Pow2(l) <= |T[u[nh - 1]].ent|
  {
    assert LevelOk(T, M, cnt, g, l, u, x, nh - 1, cur);
    var w, n := Off(l, nh - 1), M[u[nh - 1]];
    if n.tb < l { CapBound(cnt, cur, w, n.tb, l); }
    NumBound(cur[w..w + l]);
    Pow2Mono(l, n.tb);
  }

  lemma AddLevels(T: Tabs, T': Tabs, M: Nodes, cnt: seq<nat>, g: nat, l: nat, u: seq<int>, x: seq<nat>, nh: nat,
                  cur: seq<bool>, q: int, tb: nat)
    requires Levels(T, M, cnt, g, l, u, x, nh, cur) && 1 <= l && nh < |u| && nh < |x| && q !in M
    requires Off(l, nh) < |cur| && Off(l, nh) + tb <= g && (nh == 0 ==> tb >= l)
    requires Cap(cnt, cur[..Off(l, nh)], tb, l) && Grown(T, T', l, u, nh, cur, q, tb)
    ensures Levels(T', M[q := NewNode(cur, l, nh, tb)], cnt, g, l, u[nh := q], x[nh := Num(cur[..Off(l, nh)])], nh + 1,
            cur)
  {
    hide Num, Pow2, Low, Cap;
    var M', u', x' := M[q := NewNode(cur, l, nh, tb)], u[nh := q], x[nh := Num(cur[..Off(l, nh)])];
    forall m | 0 <= m < nh + 1 ensures LevelOk(T', M', cnt, g, l, u', x', m, cur) {
      if m < nh { assert LevelOk(T, M, cnt, g, l, u, x, m, cur); }
    }
  }

  // The table that gets a successor is indexed by exactly l bits.
  lemma ParentBits(T: Tabs, M: Nodes, cnt: seq<nat>, g: nat, l: nat, u: seq<int>, x: seq<nat>, nh: nat, cur: seq<bool>)
    requires Levels(T, M, cnt, g, l, u, x, nh, cur) && Links(T, M, l, u, nh, cur) && 1 <= nh && 1 <= l
    requires Off(l, nh) < |cur| < |cnt| && First(cnt, |cur|) <= Be(cur)
    ensures var w, p := Off(l, nh - 1), u[nh - 1];
            && w <= |cur| && p in T && p in M && M[p].lb == l && M[p].prefix == cur[..w] && |M[p].prefix| == w
    ensures Num(cur[Off(l, nh - 1)..Off(l, nh)]) < Pow2(l) <= |T[u[nh - 1]].ent|
  {
    hide Num, Pow2, Low, Cap, Be, LinkOk;
    ParentWide(T, M, cnt, g, l, u, x, nh, cur);
    assert LevelOk(T, M, cnt, g, l, u, x, nh - 1, cur);
  }

  lemma OldLink(T: Tabs, T': Tabs, M: Nodes, cnt: seq<nat>, g: nat, l: nat, u: seq<int>, x: seq<nat>, nh: nat,
                cur: seq<bool>, q: int, tb: nat, m: nat)
    requires Levels(T, M, cnt, g, l, u, x, nh, cur) && Links(T, M, l, u, nh, cur) && 1 <= l && nh < |u| && q !in M
    requires Grown(T, T', l, u, nh, cur, q, tb) && m + 1 < nh
    ensures LinkOk(T', M[q := NewNode(cur, l, nh, tb)], l, u[nh := q], m, cur)
  {
    hide Num, Pow2, Low, Cap;
    assert LinkOk(T, M, l, u, m, cur);
    assert LevelOk(T, M, cnt, g, l, u, x, m, cur) && LevelOk(T, M, cnt, g, l, u, x, nh - 1, cur);
    OffMono(l, m, nh - 1);
    assert |M[u[m]].prefix| < |M[u[nh - 1]].prefix|;
  }

  lemma NewLink(T: Tabs, T': Tabs, M: Nodes, cnt: seq<nat>, g: nat, l: nat, u: seq<int>, x: seq<nat>, nh: nat,
                cur: seq<bool>, q: int, tb: nat)
    requires Levels(T, M, cnt, g, l, u, x, nh, cur) && Links(T, M, l, u, nh, cur) && 1 <= l && 1 <= nh < |u| && q !in M
    requires Off(l, nh) < |cur| < |cnt| && First(cnt, |cur|) <= Be(cur)
    requires 1 <= tb <= 16 && Grown(T, T', l, u, nh, cur, q, tb)
    ensures LinkOk(T', M[q := NewNode(cur, l, nh, tb)], l, u[nh := q], nh - 1, cur)
  {
    hide Num, Pow2, Low, Cap, Be, Levels, Links;
    ParentBits(T, M, cnt, g, l, u, x, nh, cur);
  }

  lemma AddLinks(T: Tabs, T': Tabs, M: Nodes, cnt: seq<nat>, g: nat, l: nat, u: seq<int>, x: seq<nat>, nh: nat,
                 cur: seq<bool>, q: int, tb: nat)
    requires Levels(T, M, cnt, g, l, u, x, nh, cur) && Links(T, M, l, u, nh, cur) && 1 <= l && nh < |u| && q !in M
    requires Off(l, nh) < |cur| < |cnt| && First(cnt, |cur|) <= Be(cur)
    requires (nh > 0 ==> 1 <= tb <= l) && l <= 16 && Grown(T, T', l, u, nh, cur, q, tb)
    ensures Links(T', M[q := NewNode(cur, l, nh, tb)], l, u[nh := q], nh + 1, cur)
  {
    hide Num, Pow2, Low, Cap, Be, Levels, LinkOk, Grown;
    var M', u' := M[q := NewNode(cur, l, nh, tb)], u[nh := q];
    forall m | 0 <= m && m + 1 < nh + 1 ensures LinkOk(T', M', l, u', m, cur) {
      if m + 1 < nh {
        OldLink(T, T', M, cnt, g, l, u, x, nh, cur, q, tb, m);
      } else {
        NewLink(T, T', M, cnt, g, l, u, x, nh, cur, q, tb);
      }
    }
  }

  // Earlier codes do not pass through the entry that now links the new table.
  lemma AddSame(T: Tabs, T': Tabs, M: Nodes, M': Nodes, cnt: seq<nat>, g: nat, l: nat, u: seq<int>, x: seq<nat>,
                nh: nat, cur: seq<bool>, q: int, tb: nat, r: nat, bs: seq<bool>, kk: nat)
    requires Levels(T, M, cnt, g, l, u, x, nh, cur) && Links(T, M, l, u, nh, cur) && 1 <= l && 1 <= nh <= |u| && q !in M
    requires Off(l, nh) < |cur| < |cnt| && |cur| <= |bs| && Be(cur) == First(cnt, |cur|) + r && Aligned(l, nh, cur)
    requires Grown(T, T', l, u, nh, cur, q, tb) && M' == M[q := NewNode(cur, l, nh, tb)]
    requires DoneHit(cnt, |cur|, r, bs, kk)
    ensures SameFor(T, M, T', M', bs)
  {
    hide Num, Pow2, Low, Cap, Be, DoneHit, Levels, Links;
    var p := u[nh - 1];
    ParentBits(T, M, cnt, g, l, u, x, nh, cur);
    if Serves(M[p], bs) {
      LinkMissed(M[p], l, nh, cur, bs);
      NotDone(cnt, |cur|, r, cur, Off(l, nh), bs, kk);
    }
    forall t | t in T && t in M ensures SameAt(T, M, T', M', t, bs) {
    }
  }

  lemma LinkMissed(n: Node, l: nat, nh: nat, cur: seq<bool>, bs: seq<bool>)
    requires 1 <= nh && Off(l, nh) <= |cur| && Serves(n, bs) && n.lb == l
    requires |n.prefix| == Off(l, nh - 1) <= |cur| && n.prefix == cur[..|n.prefix|]
    ensures var w, v := Off(l, nh - 1), Off(l, nh);
            Index(n, bs) == Num(cur[w..v]) <==> bs[..v] == cur[..v]
  {
    hide Num, Pow2, Low;
    var w, v := Off(l, nh - 1), Off(l, nh);
    var c := cur[..v];
    assert c[..w] == cur[..w] && c[w..] == cur[w..v];
    FilledIndex(n, c, bs);
    NumBound(bs[w..v]);
    LowBelow(Index(n, bs), l);
  }

  lemma AddDone(T: Tabs, T': Tabs, M: Nodes, cs: CodeSet, cnt: seq<nat>, g: nat, l: nat, u: seq<int>, x: seq<nat>,
                nh: nat, cur: seq<bool>, q: int, tb: nat, r: nat)
    requires Levels(T, M, cnt, g, l, u, x, nh, cur) && Links(T, M, l, u, nh, cur) && 1 <= l && 1 <= nh < |u| && q !in M
    requires Off(l, nh) < |cur| <= g < |cnt| && Be(cur) == First(cnt, |cur|) + r && Aligned(l, nh, cur)
    requires Grown(T, T', l, u, nh, cur, q, tb)
    requires AllDone(T, M, l, u[0], cs, cnt, g, |cur|, r)
    ensures AllDone(T', M[q := NewNode(cur, l, nh, tb)], l, u[0], cs, cnt, g, |cur|, r)
  {
    hide Num, Pow2, Low, Cap, Be, LeafOk, Known, Links, Levels, Grown, Aligned;
    var k, M' := |cur|, M[q := NewNode(cur, l, nh, tb)];
    forall kk, bs | |bs| == g && DoneHit(cnt, k, r, bs, kk) ensures Reaches(T', M', l, u[0], cs, cnt, kk, bs) {
      assert Reaches(T, M, l, u[0], cs, cnt, kk, bs);
      AddSame(T, T', M, M', cnt, g, l, u, x, nh, cur, q, tb, r, bs, kk);
      if Known(cs, cnt, kk, Be(bs[..kk]) - First(cnt, kk)) { TraceFrame(T, M, T', M', l, u[0], bs, 0); }
    }
  }

  // ---- moving on to the next code ----

  lemma TakeSlice<T>(s: seq<T>, v: nat, a: nat, b: nat)
    requires a <= b <= v <= |s|
    ensures s[..v][a..b] == s[a..b]
  {
  }

  lemma KeepLevels(T: Tabs, M: Nodes, cnt: seq<nat>, g: nat, l: nat, u: seq<int>, x: seq<nat>, nh: nat, cur: seq<bool>,
                   nh': nat, cur': seq<bool>)
    requires Levels(T, M, cnt, g, l, u, x, nh, cur) && 1 <= nh' <= nh && |cur| <= |cur'|
    requires Off(l, nh' - 1) <= |cur| && cur'[..Off(l, nh' - 1)] == cur[..Off(l, nh' - 1)]
    ensures Levels(T, M, cnt, g, l, u, x, nh', cur')
    ensures Links(T, M, l, u, nh, cur) ==> Links(T, M, l, u, nh', cur')
  {
    hide Num, Pow2, Low, Cap;
    var v := Off(l, nh' - 1);
    forall m | 0 <= m < nh' ensures LevelOk(T, M, cnt, g, l, u, x, m, cur') {
      assert LevelOk(T, M, cnt, g, l, u, x, m, cur);
      OffMono(l, m, nh' - 1);
      assert cur'[..Off(l, m)] == cur'[..v][..Off(l, m)] && cur[..Off(l, m)] == cur[..v][..Off(l, m)];
    }
    if Links(T, M, l, u, nh, cur) {
      forall m | 0 <= m && m + 1 < nh' ensures LinkOk(T, M, l, u, m, cur') {
        assert LinkOk(T, M, l, u, m, cur);
        OffMono(l, m + 1, nh' - 1);
        var a, b := Off(l, m), Off(l, m + 1);
        assert cur[a..b] == cur[..v][a..b] by { TakeSlice(cur, v, a, b); }
        assert cur'[a..b] == cur'[..v][a..b] by { TakeSlice(cur', v, a, b); }
      }
    }
  }

  // After the last code of length k, the first code of length k + 1.
  lemma NextLength(T: Tabs, M: Nodes, l: nat, root: int, cs: CodeSet, cnt: seq<nat>, g: nat, k: nat)
    requires 1 <= k && k + 1 < |cnt| && AllDone(T, M, l, root, cs, cnt, g, k, cnt[k])
    ensures AllDone(T, M, l, root, cs, cnt, g, k + 1, 0)
  {
    hide Be, Reaches;
    forall kk, bs | |bs| == g && DoneHit(cnt, k + 1, 0, bs, kk) ensures Reaches(T, M, l, root, cs, cnt, kk, bs) {
      assert DoneHit(cnt, k, cnt[k], bs, kk);
    }
  }
}
