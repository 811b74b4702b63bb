// What goes wrong in huft_build of loader/src/inflate.c when a table below the first comes out
// wider than l bits: the tables it leads to are entered at one of several places, and the last
// entry of the wide table is never written.
module BuildHole {
  import opened Bits
  import opened Canonical
  import opened Tables
  import opened BuildInvariant
  import opened BuildSteps

  // The first wide table: path is the table stack down to it, bs a string whose walk follows the
  // path and then looks at the table's last entry, was what memory held there.
  datatype Hole = Hole(path: seq<int>, bs: seq<bool>, was: Huft)

  function Trues(n: nat): (s: seq<bool>)
    ensures |s| == n
  {
    seq(n, _ => true)
  }

  lemma {:induction false} OnesBe(s: seq<bool>)
    requires forall i :: 0 <= i < |s| ==> s[i]
    ensures Be(s) == Pow2(|s|) - 1 && Num(s) == Pow2(|s|) - 1
  {
    if s != [] {
      OnesBe(s[..|s| - 1]);
      OnesNum(s);
    }
  }

  lemma {:induction false} OnesNum(s: seq<bool>)
    requires forall i :: 0 <= i < |s| ==> s[i]
    ensures Num(s) == Pow2(|s|) - 1
  {
    if s != [] { OnesNum(s[1..]); }
  }

  lemma OnesSlice(s: seq<bool>, w: nat, n: nat)
    requires w + n <= |s| && forall i :: w <= i < |s| ==> s[i]
    ensures Num(s[w..w + n]) == Pow2(n) - 1 && Be(s[w..w + n]) == Pow2(n) - 1
  {
    hide Num, Be, Pow2;
    OnesBe(s[w..w + n]);
  }

  // ---- the path ----

  // The walk of bs goes down the path and then looks at an entry that holds was.
  ghost predicate Path(T: Tabs, M: Nodes, g: nat, l: nat, hole: Hole)
  {
    && 2 <= |hole.path| && |hole.bs| == g
    && (forall i :: 0 <= i < |hole.path| ==> OnPath(T, M, g, l, hole, i))
    && (forall i :: 0 <= i && i + 1 < |hole.path| ==> LinkOk(T, M, l, hole.path, i, hole.bs))
    && Ends(T, M, g, l, hole)
  }

  ghost predicate Ends(T: Tabs, M: Nodes, g: nat, l: nat, hole: Hole)
    requires 2 <= |hole.path|
  {
    var q := hole.path[|hole.path| - 1];
    && q in T && q in M
    && l < M[q].lb && |M[q].prefix| + M[q].lb <= g && Serves(M[q], hole.bs)
    && Index(M[q], hole.bs) < |T[q].ent| && T[q].ent[Index(M[q], hole.bs)] == hole.was
  }

  ghost predicate OnPath(T: Tabs, M: Nodes, g: nat, l: nat, hole: Hole, i: nat)
    requires i < |hole.path|
  {
    var t := hole.path[i];
    t in T && t in M && Off(l, i) <= |hole.bs| && M[t].prefix == hole.bs[..Off(l, i)]
  }

  // The string goes on with ones, and no code of up to l more bits starts like that.
  ghost predicate Open(c: seq<nat>, g: nat, l: nat, hole: Hole)
  {
    && |hole.path| >= 2
    && var w := Off(l, |hole.path| - 1);
    && w + l <= g < |c| && 1 <= w + l && |hole.bs| == g
    && (forall i :: w <= i < g ==> hole.bs[i])
    && Used(c, w + l) < (Be(hole.bs[..w]) + 1) * Pow2(l)
  }

  // The current code has left the prefix of a table on the path behind, or the table is on the stack.
  ghost predicate Track(l: nat, u: seq<int>, nh: nat, cur: seq<bool>, hole: Hole, i: nat)
    requires i < |hole.path|
  {
    var n := Off(l, i);
    && n <= |cur| && n <= |hole.bs|
    && ((cur[..n] == hole.bs[..n] && i < nh <= |u| && u[i] == hole.path[i]) || Be(hole.bs[..n]) < Be(cur[..n]))
  }

  ghost predicate Tracked(l: nat, u: seq<int>, nh: nat, cur: seq<bool>, hole: Hole)
  {
    forall i :: 0 <= i < |hole.path| ==> Track(l, u, nh, cur, hole, i)
  }

  lemma PathAt(T: Tabs, M: Nodes, g: nat, l: nat, hole: Hole, i: nat)
    requires Path(T, M, g, l, hole) && i < |hole.path|
    ensures OnPath(T, M, g, l, hole, i)
    ensures i + 1 < |hole.path| ==> LinkOk(T, M, l, hole.path, i, hole.bs)
    ensures Ends(T, M, g, l, hole)
  {
  }

  lemma TopTable(T: Tabs, M: Nodes, cnt: seq<nat>, g: nat, l: nat, u: seq<int>, x: seq<nat>, nh: nat, cur: seq<bool>)
    requires Levels(T, M, cnt, g, l, u, x, nh, cur) && 1 <= nh
    ensures u[nh - 1] in T && u[nh - 1] in M && Off(l, nh - 1) < |cur|
    ensures M[u[nh - 1]].prefix == cur[..Off(l, nh - 1)]
  {
    assert LevelOk(T, M, cnt, g, l, u, x, nh - 1, cur);
  }

  // T' has the entry that T has.
  ghost predicate SameEntry(T: Tabs, T': Tabs, t: int, i: nat)
  {
    t in T && t in T' && |T'[t].ent| == |T[t].ent| && (i < |T[t].ent| ==> T'[t].ent[i] == T[t].ent[i])
  }

  lemma LinkMoved(T: Tabs, T': Tabs, M: Nodes, M': Nodes, l: nat, path: seq<int>, i: nat, bs: seq<bool>)
    requires i + 1 < |path| && LinkOk(T, M, l, path, i, bs)
    requires SameEntry(T, T', path[i], Num(bs[Off(l, i)..Off(l, i + 1)]))
    requires path[i] in M' && M'[path[i]] == M[path[i]] && path[i + 1] in M' && M'[path[i + 1]] == M[path[i + 1]]
    ensures LinkOk(T', M', l, path, i, bs)
  {
    hide Num;
  }

  // The link at level i of the path is in T and the same entry is in T'.
  ghost predicate LinkSame(T: Tabs, T': Tabs, M: Nodes, l: nat, hole: Hole, i: nat)
    requires i + 1 < |hole.path|
  {
    LinkOk(T, M, l, hole.path, i, hole.bs) && SameEntry(T, T', hole.path[i], Num(hole.bs[Off(l, i)..Off(l, i + 1)]))
  }

  // The path survives a change of tables that spares its entries.
  lemma PathMoved(T: Tabs, T': Tabs, M: Nodes, M': Nodes, g: nat, l: nat, hole: Hole)
    requires Path(T, M, g, l, hole)
    requires forall t :: t in T ==> t in T'
    requires forall t :: t in M ==> t in M' && M'[t] == M[t]
    requires forall i :: 0 <= i && i + 1 < |hole.path| ==> LinkSame(T, T', M, l, hole, i)
    requires Ends(T, M, g, l, hole)
    requires var q := hole.path[|hole.path| - 1]; SameEntry(T, T', q, Index(M[q], hole.bs))
    ensures Path(T', M', g, l, hole)
  {
    hide Num, LinkOk;
    forall i | 0 <= i < |hole.path| ensures OnPath(T', M', g, l, hole, i) { assert OnPath(T, M, g, l, hole, i); }
    forall i | 0 <= i && i + 1 < |hole.path| ensures LinkOk(T', M', l, hole.path, i, hole.bs) {
      assert LinkSame(T, T', M, l, hole, i);
      PathAt(T, M, g, l, hole, i);
      PathAt(T, M, g, l, hole, i + 1);
      LinkMoved(T, T', M, M', l, hole.path, i, hole.bs);
    }
  }

  lemma SameOff(l: nat, a: nat, b: nat)
    requires 1 <= l && Off(l, a) == Off(l, b)
    ensures a == b
  {
    if a < b { OffMono(l, a, b); }
    if b < a { OffMono(l, b, a); }
  }

  // ---- a table is added ----

  lemma TrackLevel(l: nat, u: seq<int>, nh: nat, cur: seq<bool>, hole: Hole, q: int)
    requires Tracked(l, u, nh, cur, hole) && nh < |u|
    ensures Tracked(l, u[nh := q], nh + 1, cur, hole)
  {
    hide Be;
    var u', nh' := u[nh := q], nh + 1;
    forall i | 0 <= i < |hole.path| ensures Track(l, u', nh', cur, hole, i) {
      assert Track(l, u, nh, cur, hole, i);
    }
  }

  // Linking a new table changes one entry of the table on top.
  lemma GrownEntry(T: Tabs, T': Tabs, l: nat, u: seq<int>, nh: nat, cur: seq<bool>, q: int, tb: nat, t: int, i: nat)
    requires Grown(T, T', l, u, nh, cur, q, tb) && t in T && 1 <= nh && Off(l, nh - 1) <= Off(l, nh)
    requires t == u[nh - 1] ==> i != Num(cur[Off(l, nh - 1)..Off(l, nh)])
    ensures SameEntry(T, T', t, i)
  {
    hide Num, Pow2;
  }

  // The link to a new table is not where the walk of bs passes.
  lemma LinkSpared(T: Tabs, T': Tabs, M: Nodes, cnt: seq<nat>, g: nat, l: nat, u: seq<int>, x: seq<nat>, nh: nat,
                   cur: seq<bool>, q: int, tb: nat, hole: Hole, i: nat)
    requires Levels(T, M, cnt, g, l, u, x, nh, cur) && 1 <= l && 1 <= nh < |u|
    requires Off(l, nh) < |cur| && Grown(T, T', l, u, nh, cur, q, tb)
    requires Path(T, M, g, l, hole) && Tracked(l, u, nh, cur, hole) && i + 1 < |hole.path|
    ensures LinkSame(T, T', M, l, hole, i)
  {
    hide Num, Pow2, Be, Levels, Path, Grown, Tracked, SameEntry;
    PathAt(T, M, g, l, hole, i);
    OffNext(l, nh - 1);
    if hole.path[i] == u[nh - 1] {
      TopTable(T, M, cnt, g, l, u, x, nh, cur);
      SameOff(l, i, nh - 1);
      TrackAt(l, u, nh, cur, hole, nh);
      PathMissed(l, nh, cur, hole.bs);
    }
    GrownEntry(T, T', l, u, nh, cur, q, tb, hole.path[i], Num(hole.bs[Off(l, i)..Off(l, i + 1)]));
  }

  // A table on the path that is not on the stack has been left behind.
  lemma TrackAt(l: nat, u: seq<int>, nh: nat, cur: seq<bool>, hole: Hole, i: nat)
    requires Tracked(l, u, nh, cur, hole) && i < |hole.path| && i >= nh
    ensures Off(l, i) <= |cur| && Off(l, i) <= |hole.bs| && cur[..Off(l, i)] != hole.bs[..Off(l, i)]
  {
    hide Be;
    assert Track(l, u, nh, cur, hole, i);
  }

  // Different prefixes behind a common one are entered at different places.
  lemma PathMissed(l: nat, nh: nat, cur: seq<bool>, bs: seq<bool>)
    requires 1 <= nh && Off(l, nh) == Off(l, nh - 1) + l <= |cur| && Off(l, nh) <= |bs|
    requires cur[..Off(l, nh - 1)] == bs[..Off(l, nh - 1)] && cur[..Off(l, nh)] != bs[..Off(l, nh)]
    ensures Num(cur[Off(l, nh - 1)..Off(l, nh)]) != Num(bs[Off(l, nh - 1)..Off(l, nh)])
  {
    hide Num;
    var w, v := Off(l, nh - 1), Off(l, nh);
    assert cur[..v] == cur[..w] + cur[w..v] && bs[..v] == bs[..w] + bs[w..v];
    if Num(cur[w..v]) == Num(bs[w..v]) { NumInjective(cur[w..v], bs[w..v]); }
  }

  // A link goes into the lower half of the wide table.
  lemma EndSpared(T: Tabs, T': Tabs, M: Nodes, cnt: seq<nat>, g: nat, l: nat, u: seq<int>, x: seq<nat>, nh: nat,
                  cur: seq<bool>, q: int, tb: nat, hole: Hole)
    requires Levels(T, M, cnt, g, l, u, x, nh, cur) && 1 <= l && 1 <= nh < |u|
    requires Off(l, nh) < |cur| && Grown(T, T', l, u, nh, cur, q, tb)
    requires Path(T, M, g, l, hole) && Open(cnt, g, l, hole)
    ensures Ends(T, M, g, l, hole)
    ensures var v := hole.path[|hole.path| - 1]; SameEntry(T, T', v, Index(M[v], hole.bs))
  {
    hide Num, Pow2, Be, Levels, Path, Grown, SameEntry;
    var m := |hole.path| - 1;
    PathAt(T, M, g, l, hole, m);
    var v := hole.path[m];
    OffNext(l, nh - 1);
    if v == u[nh - 1] {
      TopTable(T, M, cnt, g, l, u, x, nh, cur);
      SameOff(l, m, nh - 1);
      var w := Off(l, m);
      OnesSlice(hole.bs, w, M[v].lb);
      NumBound(cur[w..w + l]);
      Pow2Mono(l, M[v].lb);
    }
    GrownEntry(T, T', l, u, nh, cur, q, tb, v, Index(M[v], hole.bs));
  }

  lemma PathGrown(T: Tabs, T': Tabs, M: Nodes, cnt: seq<nat>, g: nat, l: nat, u: seq<int>, x: seq<nat>, nh: nat,
                  cur: seq<bool>, q: int, tb: nat, hole: Hole)
    requires Levels(T, M, cnt, g, l, u, x, nh, cur) && 1 <= l && 1 <= nh < |u| && q !in M
    requires Off(l, nh) < |cur| && Grown(T, T', l, u, nh, cur, q, tb)
    requires Path(T, M, g, l, hole) && Open(cnt, g, l, hole) && Tracked(l, u, nh, cur, hole)
    ensures Path(T', M[q := NewNode(cur, l, nh, tb)], g, l, hole)
  {
    hide Num, Pow2, Be, Open, Levels, Tracked, Path, SameEntry, Ends, LinkOk, LinkSame;
    PathSize(T, M, g, l, hole);
    forall i | 0 <= i && i + 1 < |hole.path| ensures LinkSame(T, T', M, l, hole, i) {
      LinkSpared(T, T', M, cnt, g, l, u, x, nh, cur, q, tb, hole, i);
    }
    EndSpared(T, T', M, cnt, g, l, u, x, nh, cur, q, tb, hole);
    PathMoved(T, T', M, M[q := NewNode(cur, l, nh, tb)], g, l, hole);
  }

  lemma PathSize(T: Tabs, M: Nodes, g: nat, l: nat, hole: Hole)
    requires Path(T, M, g, l, hole)
    ensures 2 <= |hole.path| && |hole.bs| == g
  {
  }

  // ---- a code is placed ----

  // No code of up to l more bits is the prefix of the wide table followed by ones.
  lemma NotACode(cnt: seq<nat>, g: nat, l: nat, hole: Hole, cur: seq<bool>)
    requires Open(cnt, g, l, hole) && Off(l, |hole.path| - 1) < |cur| <= Off(l, |hole.path| - 1) + l
    requires First(cnt, |cur|) <= Be(cur) < Used(cnt, |cur|)
    ensures hole.bs[..|cur|] != cur
  {
    hide Be, Pow2, First;
    var w, k := Off(l, |hole.path| - 1), |cur|;
    if hole.bs[..k] == cur {
      var p, d := Be(hole.bs[..w]), k - w;
      OnesSlice(hole.bs, w, d);
      assert cur == hole.bs[..w] + hole.bs[w..w + d];
      BeAppend(hole.bs[..w], hole.bs[w..w + d]);
      MulAddOne(p, Pow2(d));
      assert (p + 1) * Pow2(d) <= Used(cnt, k);
      if d < l {
        FirstGrows(cnt, k, w + l);
        MulMono((p + 1) * Pow2(d), Used(cnt, k), Pow2(l - d));
        Pow2Add(d, l - d);
        MulAssoc(p + 1, Pow2(d), Pow2(l - d));
      }
    }
  }

  // Filling in a code leaves the path and the last entry of the wide table alone.
  lemma PathPlaced(T: Tabs, M: Nodes, cnt: seq<nat>, g: nat, l: nat, u: seq<int>, x: seq<nat>, nh: nat, cur: seq<bool>,
                   ent: seq<Huft>, e: Huft, hole: Hole)
    requires Levels(T, M, cnt, g, l, u, x, nh, cur) && 1 <= l <= g && 1 <= nh <= |u| && u[nh - 1] in T
    requires 1 <= |cur| < |cnt| && |cur| <= Off(l, nh) && First(cnt, |cur|) <= Be(cur) < Used(cnt, |cur|)
    requires Off(l, nh - 1) <= |cur| && Filled(T[u[nh - 1]].ent, ent, Num(cur[Off(l, nh - 1)..]),
             |cur| - Off(l, nh - 1), e)
    requires Path(T, M, g, l, hole) && Open(cnt, g, l, hole) && Off(l, |hole.path| - 1) < |cur|
    ensures Path(T[u[nh - 1] := T[u[nh - 1]].(ent := ent)], M, g, l, hole)
  {
    hide Num, Pow2, Be, Open, Levels, Path, SameEntry, Ends, LinkOk, LinkSame, First, Filled;
    PathSize(T, M, g, l, hole);
    var T', q, m := T[u[nh - 1] := T[u[nh - 1]].(ent := ent)], u[nh - 1], |hole.path| - 1;
    TopTable(T, M, cnt, g, l, u, x, nh, cur);
    if nh - 1 < m { OffMono(l, nh, m); }
    forall i | 0 <= i && i + 1 < |hole.path| ensures LinkSame(T, T', M, l, hole, i) {
      LinkPlaced(T, M, g, l, q, ent, hole, i, nh - 1);
    }
    EndPlaced(T, M, cnt, g, l, u, x, nh, cur, ent, e, hole);
    PathMoved(T, T', M, M, g, l, hole);
  }

  // The table a code goes into lies below the links of the path.
  lemma LinkPlaced(T: Tabs, M: Nodes, g: nat, l: nat, q: int, ent: seq<Huft>, hole: Hole, i: nat, h: nat)
    requires Path(T, M, g, l, hole) && 1 <= l && i + 1 < |hole.path| && |hole.path| - 1 <= h
    requires q in T && q in M && |M[q].prefix| == Off(l, h)
    ensures LinkSame(T, T[q := T[q].(ent := ent)], M, l, hole, i)
  {
    hide Num, Path, LinkOk;
    PathAt(T, M, g, l, hole, i);
    OffMono(l, i, h);
    LinkRange(T, M, l, hole.path, i, hole.bs);
  }

  lemma LinkRange(T: Tabs, M: Nodes, l: nat, path: seq<int>, i: nat, bs: seq<bool>)
    requires i + 1 < |path| && LinkOk(T, M, l, path, i, bs)
    ensures path[i] in T && path[i] in M && Off(l, i) <= Off(l, i + 1) <= |bs|
  {
  }

  lemma EndPlaced(T: Tabs, M: Nodes, cnt: seq<nat>, g: nat, l: nat, u: seq<int>, x: seq<nat>, nh: nat, cur: seq<bool>,
                  ent: seq<Huft>, e: Huft, hole: Hole)
    requires Levels(T, M, cnt, g, l, u, x, nh, cur) && 1 <= l && 1 <= nh <= |u| && u[nh - 1] in T
    requires 1 <= |cur| < |cnt| && |cur| <= Off(l, nh) && First(cnt, |cur|) <= Be(cur) < Used(cnt, |cur|)
    requires Off(l, nh - 1) <= |cur| && Filled(T[u[nh - 1]].ent, ent, Num(cur[Off(l, nh - 1)..]),
             |cur| - Off(l, nh - 1), e)
    requires Path(T, M, g, l, hole) && Open(cnt, g, l, hole)
    ensures Ends(T, M, g, l, hole)
    ensures var v := hole.path[|hole.path| - 1];
            SameEntry(T, T[u[nh - 1] := T[u[nh - 1]].(ent := ent)], v, Index(M[v], hole.bs))
  {
    hide Num, Pow2, Be, Open, Levels, Path, First, Low;
    PathSize(T, M, g, l, hole);
    var m, q := |hole.path| - 1, u[nh - 1];
    PathAt(T, M, g, l, hole, m);
    TopTable(T, M, cnt, g, l, u, x, nh, cur);
    OffNext(l, nh - 1);
    if hole.path[m] == q {
      SameOff(l, m, nh - 1);
      NotACode(cnt, g, l, hole, cur);
      FilledIndex(M[q], cur, hole.bs);
    }
  }

  // ---- moving on ----

  // A prefix of the next code is the old one or greater.
  lemma PrefixAfter(cur: seq<bool>, next: seq<bool>, n: nat)
    requires n <= |cur| == |next| && Be(next) == Be(cur) + 1
    ensures Be(next[..n]) >= Be(cur[..n]) && (next[..n] != cur[..n] ==> Be(next[..n]) > Be(cur[..n]))
    ensures next[..n] == cur[..n] && n < |cur| ==> exists j :: n <= j < |cur| && next[j]
  {
    hide Be, Pow2;
    var d := |cur| - n;
    BeSplit(cur, n);
    BeSplit(next, n);
    if Be(next[..n]) < Be(cur[..n]) { MulMono(Be(next[..n]) + 1, Be(cur[..n]), Pow2(d)); }
    if Be(next[..n]) == Be(cur[..n]) { BeInjective(next[..n], cur[..n]); }
    if next[..n] == cur[..n] && forall j :: n <= j < |cur| ==> !next[j] { BeZeros(next, n); }
  }

  // Below the levels kept, the next code differs from the current one.
  lemma KeptTrack(l: nat, u: seq<int>, nh: nat, cur: seq<bool>, nh': nat, next: seq<bool>, hole: Hole, i: nat)
    requires Tracked(l, u, nh, cur, hole) && i < |hole.path| && |next| == |cur| && Be(next) == Be(cur) + 1
    requires 1 <= nh' <= nh && (nh' < nh ==> Off(l, nh') <= |cur| && next[..Off(l, nh')] != cur[..Off(l, nh')])
    ensures Track(l, u, nh', next, hole, i)
  {
    hide Be;
    assert Track(l, u, nh, cur, hole, i);
    var n := Off(l, i);
    PrefixAfter(cur, next, n);
    if nh' <= i {
      OffMono(l, nh', i);
      ShorterPrefix(next, cur, n, Off(l, nh'));
    }
  }

  lemma ShorterPrefix(a: seq<bool>, b: seq<bool>, n: nat, n': nat)
    requires n' <= n <= |a| && n <= |b|
    ensures a[..n] == b[..n] ==> a[..n'] == b[..n']
  {
    assert a[..n][..n'] == a[..n'] && b[..n][..n'] == b[..n'];
  }

  lemma TrackLength(l: nat, u: seq<int>, nh: nat, cur: seq<bool>, hole: Hole)
    requires Tracked(l, u, nh, cur, hole)
    ensures Tracked(l, u, nh, cur + [false], hole)
  {
    hide Be;
    var cur' := cur + [false];
    forall i | 0 <= i < |hole.path| ensures Track(l, u, nh, cur', hole, i) {
      assert Track(l, u, nh, cur, hole, i);
      assert cur'[..Off(l, i)] == cur[..Off(l, i)];
    }
  }

  // ---- the first wide table ----

  function HoleAt(u: seq<int>, nh: nat, cur: seq<bool>, g: nat, l: nat, q: int, was: Huft): Hole
    requires nh <= |u| && Off(l, nh) <= |cur| && Off(l, nh) <= g
  {
    Hole(u[..nh] + [q], cur[..Off(l, nh)] + Trues(g - Off(l, nh)), was)
  }

  lemma LinkOther(T: Tabs, M: Nodes, l: nat, u: seq<int>, path: seq<int>, i: nat, cur: seq<bool>, bs: seq<bool>)
    requires i + 1 < |u| && i + 1 < |path| && path[i] == u[i] && path[i + 1] == u[i + 1]
    requires LinkOk(T, M, l, u, i, cur) && Off(l, i + 1) <= |bs| && cur[..Off(l, i + 1)] == bs[..Off(l, i + 1)]
    ensures LinkOk(T, M, l, path, i, bs)
  {
    hide Num;
    var w, v := Off(l, i), Off(l, i + 1);
    assert cur[w..v] == cur[..v][w..] && bs[w..v] == bs[..v][w..];
  }

  // The string follows the current code and then goes on with ones.
  lemma OnesAfter(cur: seq<bool>, g: nat, w: nat, n: nat)
    requires n <= w <= |cur| && w <= g
    ensures var bs := cur[..w] + Trues(g - w);
            |bs| == g && bs[..n] == cur[..n] && forall i :: w <= i < g ==> bs[i]
  {
  }

  lemma HoleLink(T: Tabs, T': Tabs, M: Nodes, cnt: seq<nat>, g: nat, l: nat, u: seq<int>, x: seq<nat>, nh: nat,
                 cur: seq<bool>, q: int, tb: nat, hole: Hole, i: nat)
    requires Levels(T, M, cnt, g, l, u, x, nh, cur) && Links(T, M, l, u, nh, cur) && 1 <= l < tb <= 16 && 1 <= nh < |u|
             && q !in M
    requires Off(l, nh) < |cur| < |cnt| && First(cnt, |cur|) <= Be(cur) && Off(l, nh) + tb <= g
    requires Grown(T, T', l, u, nh, cur, q, tb)
    requires hole.path == u[..nh] + [q] && hole.bs == cur[..Off(l, nh)] + Trues(g - Off(l, nh)) && i < nh
    ensures LinkOk(T', M[q := NewNode(cur, l, nh, tb)], l, hole.path, i, hole.bs)
  {
    hide Num, Pow2, Be, Levels, Links, LinkOk, First, Grown, NewNode, Trues, Off;
    if i + 1 < nh {
      OldLink(T, T', M, cnt, g, l, u, x, nh, cur, q, tb, i);
    } else {
      NewLink(T, T', M, cnt, g, l, u, x, nh, cur, q, tb);
    }
    OffMono(l, i + 1, nh);
    OnesAfter(cur, g, Off(l, nh), Off(l, i + 1));
    LinkOther(T', M[q := NewNode(cur, l, nh, tb)], l, u[nh := q], hole.path, i, cur, hole.bs);
  }

  lemma HoleOn(T: Tabs, T': Tabs, M: Nodes, cnt: seq<nat>, g: nat, l: nat, u: seq<int>, x: seq<nat>, nh: nat,
               cur: seq<bool>, q: int, tb: nat, hole: Hole, i: nat)
    requires Levels(T, M, cnt, g, l, u, x, nh, cur) && Links(T, M, l, u, nh, cur) && 1 <= l < tb <= 16 && 1 <= nh < |u|
             && q !in M
    requires Off(l, nh) < |cur| < |cnt| && First(cnt, |cur|) <= Be(cur) && Off(l, nh) + tb <= g
    requires Grown(T, T', l, u, nh, cur, q, tb)
    requires hole.path == u[..nh] + [q] && hole.bs == cur[..Off(l, nh)] + Trues(g - Off(l, nh)) && i <= nh
    ensures OnPath(T', M[q := NewNode(cur, l, nh, tb)], g, l, hole, i)
  {
    hide Num, Pow2, Be, Levels, Links, First, Grown;
    StackPrefix(T, T', M, cnt, g, l, u, x, nh, cur, q, tb, i);
    OnesAfter(cur, g, Off(l, nh), Off(l, i));
  }

  lemma HoleEnds(T': Tabs, M': Nodes, g: nat, l: nat, nh: nat, cur: seq<bool>, q: int, tb: nat, hole: Hole)
    requires q in T' && q in M' && |T'[q].ent| == Pow2(tb) && 1 <= nh && l < tb && Off(l, nh) <= |cur|
             && Off(l, nh) + tb <= g
    requires M'[q] == NewNode(cur, l, nh, tb) && |hole.path| == nh + 1 && hole.path[nh] == q
    requires hole.bs == cur[..Off(l, nh)] + Trues(g - Off(l, nh)) && hole.was == T'[q].ent[Pow2(tb) - 1]
    ensures Ends(T', M', g, l, hole)
  {
    hide Num, Pow2, Be;
    OnesAfter(cur, g, Off(l, nh), Off(l, nh));
    OnesSlice(hole.bs, Off(l, nh), tb);
  }

  lemma HolePath(T: Tabs, T': Tabs, M: Nodes, cnt: seq<nat>, g: nat, l: nat, u: seq<int>, x: seq<nat>, nh: nat,
                 cur: seq<bool>, q: int, tb: nat)
    requires Levels(T, M, cnt, g, l, u, x, nh, cur) && Links(T, M, l, u, nh, cur) && 1 <= l < tb <= 16 && 1 <= nh < |u|
             && q !in M
    requires Off(l, nh) < |cur| < |cnt| && First(cnt, |cur|) <= Be(cur) && Off(l, nh) + tb <= g
    requires Grown(T, T', l, u, nh, cur, q, tb)
    ensures q in T' && |T'[q].ent| == Pow2(tb)
    ensures Path(T', M[q := NewNode(cur, l, nh, tb)], g, l, HoleAt(u, nh, cur, g, l, q, T'[q].ent[Pow2(tb) - 1]))
  {
    hide Num, Pow2, Be, Levels, Links, LinkOk, First, OnPath, Ends, Grown;
    GrownTop(T, T', l, u, nh, cur, q, tb);
    var M', hole := M[q := NewNode(cur, l, nh, tb)], HoleAt(u, nh, cur, g, l, q, T'[q].ent[Pow2(tb) - 1]);
    OnesAfter(cur, g, Off(l, nh), 0);
    forall i | 0 <= i < |hole.path| ensures OnPath(T', M', g, l, hole, i) {
      HoleOn(T, T', M, cnt, g, l, u, x, nh, cur, q, tb, hole, i);
    }
    forall i | 0 <= i && i + 1 < |hole.path| ensures LinkOk(T', M', l, hole.path, i, hole.bs) {
      HoleLink(T, T', M, cnt, g, l, u, x, nh, cur, q, tb, hole, i);
    }
    HoleEnds(T', M', g, l, nh, cur, q, tb, hole);
  }

  lemma GrownTop(T: Tabs, T': Tabs, l: nat, u: seq<int>, nh: nat, cur: seq<bool>, q: int, tb: nat)
    requires Grown(T, T', l, u, nh, cur, q, tb)
    ensures q in T' && |T'[q].ent| == Pow2(tb) && forall t :: t in T ==> t in T'
  {
  }

  lemma StackPrefix(T: Tabs, T': Tabs, M: Nodes, cnt: seq<nat>, g: nat, l: nat, u: seq<int>, x: seq<nat>, nh: nat,
                    cur: seq<bool>, q: int, tb: nat, i: nat)
    requires Levels(T, M, cnt, g, l, u, x, nh, cur) && nh < |u| && q !in M && i <= nh && Off(l, nh) < |cur|
    requires Grown(T, T', l, u, nh, cur, q, tb)
    ensures var t, M' := (u[..nh] + [q])[i], M[q := NewNode(cur, l, nh, tb)];
            t in T' && t in M' && Off(l, i) <= Off(l, nh) && M'[t].prefix == cur[..Off(l, i)]
  {
    hide Num, Pow2, Cap;
    OffMono(l, i, nh);
    if i < nh { assert LevelOk(T, M, cnt, g, l, u, x, i, cur); }
  }

  // Not fitting l bits means that codes go on below the table.
  lemma CodesGoOn(cnt: seq<nat>, g: nat, l: nat, cur: seq<bool>, w: nat)
    requires 1 <= l && w < |cur| <= g < |cnt| && w + l <= g
    requires First(cnt, |cur|) <= Be(cur) < Used(cnt, |cur|) && (forall j :: w <= j < |cur| ==> !cur[j])
    requires !Fits(cnt, |cur|, w, Be(cur[..w]), l)
    ensures Used(cnt, w + l) < (Be(cur[..w]) + 1) * Pow2(l) && Begins(cnt, |cur|, w, Be(cur[..w]))
  {
    hide Be, Pow2, First;
    BeZeros(cur, w);
    if |cur| - w > l && Used(cnt, w + l) >= (Be(cur[..w]) + 1) * Pow2(l) { CapBound(cnt, cur, w, l, l + 1); }
  }

  lemma HoleAtIs(u: seq<int>, nh: nat, cur: seq<bool>, g: nat, l: nat, q: int, was: Huft)
    requires nh <= |u| && Off(l, nh) <= |cur| && Off(l, nh) <= g
    ensures var h, w := HoleAt(u, nh, cur, g, l, q, was), Off(l, nh);
            && |h.path| == nh + 1 && |h.bs| == g && h.bs[..w] == cur[..w]
            && forall i :: w <= i < g ==> h.bs[i]
  {
    OnesAfter(cur, g, Off(l, nh), Off(l, nh));
  }

  lemma OpenIs(cnt: seq<nat>, g: nat, l: nat, hole: Hole, w: nat)
    requires |hole.path| >= 2 && w == Off(l, |hole.path| - 1) && 1 <= w + l <= g < |cnt| && |hole.bs| == g
    requires (forall i :: w <= i < g ==> hole.bs[i]) && Used(cnt, w + l) < (Be(hole.bs[..w]) + 1) * Pow2(l)
    ensures Open(cnt, g, l, hole)
  {
    hide Be, Pow2, Used, Off;
  }

  lemma HoleOpen(cnt: seq<nat>, g: nat, l: nat, u: seq<int>, nh: nat, cur: seq<bool>, q: int, was: Huft)
    requires 1 <= nh <= |u| && 1 <= l && Off(l, nh) < |cur| <= g < |cnt| && Off(l, nh) + l <= g
    requires First(cnt, |cur|) <= Be(cur) < Used(cnt, |cur|) && (forall j :: Off(l, nh) <= j < |cur| ==> !cur[j])
    requires !Fits(cnt, |cur|, Off(l, nh), Be(cur[..Off(l, nh)]), l)
    ensures Open(cnt, g, l, HoleAt(u, nh, cur, g, l, q, was)) && !Snug(cnt, g, l)
  {
    hide Be, Pow2, First, Used, Fits, Begins, Snug, HoleAt, Open;
    var w := Off(l, nh);
    HoleAtIs(u, nh, cur, g, l, q, was);
    CodesGoOn(cnt, g, l, cur, w);
    OpenIs(cnt, g, l, HoleAt(u, nh, cur, g, l, q, was), w);
    NotSnug(cnt, g, l, nh, |cur|, Be(cur[..Off(l, nh)]));
  }

  lemma NotSnug(cnt: seq<nat>, g: nat, l: nat, m: nat, k: nat, p: nat)
    requires 1 <= m && Off(l, m) < k <= g < |cnt| && Begins(cnt, k, Off(l, m), p) && !Fits(cnt, k, Off(l, m), p, l)
    ensures !Snug(cnt, g, l)
  {
    hide Begins, Fits;
  }

  lemma HoleTracked(l: nat, g: nat, u: seq<int>, nh: nat, cur: seq<bool>, q: int, was: Huft)
    requires nh < |u| && Off(l, nh) <= |cur| && Off(l, nh) <= g
    ensures Tracked(l, u[nh := q], nh + 1, cur, HoleAt(u, nh, cur, g, l, q, was))
  {
    hide Be;
    var u', nh', hole := u[nh := q], nh + 1, HoleAt(u, nh, cur, g, l, q, was);
    forall i | 0 <= i < |hole.path| ensures Track(l, u', nh', cur, hole, i) {
      OffMono(l, i, nh);
      OnesAfter(cur, g, Off(l, nh), Off(l, i));
    }
  }

  // ---- as long as no table is wide ----

  // The levels that were started for the current code fit.
  ghost predicate Settled(c: seq<nat>, l: nat, nh: nat, cur: seq<bool>, r: nat)
  {
    forall m :: 1 <= m < nh && Off(l, m) < |cur| < |c| && ZeroFrom(cur, Off(l, m)) ==>
      r < c[|cur|] && Fits(c, |cur|, Off(l, m), Be(cur[..Off(l, m)]), l)
  }

  ghost predicate ZeroFrom(cur: seq<bool>, w: nat) { forall j :: w <= j < |cur| ==> !cur[j] }

  // No code before (k, r) began a wide table.
  ghost predicate SnugUpTo(c: seq<nat>, g: nat, l: nat, k: nat, r: nat)
    requires g < |c| && k < |c|
  {
    forall m: nat, kk: nat, p: nat ::
      1 <= m && Off(l, m) < kk <= g && Begins(c, kk, Off(l, m), p) && Earlier(c, k, r, kk, Off(l, m), p) ==>
        Fits(c, kk, Off(l, m), p, l)
  }

  // The code of length kk that is the prefix p and zeros comes before (k, r).
  ghost predicate Earlier(c: seq<nat>, k: nat, r: nat, kk: nat, w: nat, p: nat)
    requires w <= kk && k < |c|
  {
    kk < k || (kk == k && p * Pow2(k - w) < First(c, k) + r)
  }

  lemma SnugAtEnd(c: seq<nat>, g: nat, l: nat)
    requires 1 <= g < |c| && SnugUpTo(c, g, l, g, c[g])
    ensures Snug(c, g, l)
  {
    hide Pow2, First;
  }

  lemma SnugStart(c: seq<nat>, g: nat, l: nat, k: nat)
    requires 1 <= k <= g < |c| && forall j :: 1 <= j < k ==> c[j] == 0
    ensures SnugUpTo(c, g, l, k, 0)
  {
    hide Pow2, First;
  }

  lemma SnugLength(c: seq<nat>, g: nat, l: nat, k: nat)
    requires 1 <= k < g < |c| && SnugUpTo(c, g, l, k, c[k])
    ensures SnugUpTo(c, g, l, k + 1, 0)
  {
    hide Pow2, First;
  }

  // A code whose value is a multiple of Pow2(k - w) has zeros from bit w on.
  lemma ZeroTail(cur: seq<bool>, w: nat, p: nat)
    requires w <= |cur| && Be(cur) == p * Pow2(|cur| - w)
    ensures ZeroFrom(cur, w) && p == Be(cur[..w])
  {
    hide Be, Pow2;
    var q, d := Be(cur[..w]), Pow2(|cur| - w);
    BeSplit(cur, w);
    if p < q { MulMono(p + 1, q, d); MulAddOne(p, d); }
    if p > q { MulMono(q + 1, p, d); }
    assert cur == cur[..w] + cur[w..];
    BeAppend(cur[..w], cur[w..]);
    AllFalse(cur[w..]);
  }

  lemma {:induction false} AllFalse(s: seq<bool>)
    requires Be(s) == 0
    ensures forall i :: 0 <= i < |s| ==> !s[i]
  {
    if s != [] { AllFalse(s[..|s| - 1]); }
  }

  // Placing a code whose levels fit.
  lemma SnugCode(c: seq<nat>, g: nat, l: nat, nh: nat, cur: seq<bool>, k: nat, r: nat)
    requires |cur| == k && 1 <= k <= g < |c| && 1 <= l && k <= Off(l, nh) && r < c[k] && Be(cur) == First(c, k) + r
    requires SnugUpTo(c, g, l, k, r) && Settled(c, l, nh, cur, r)
    ensures SnugUpTo(c, g, l, k, r + 1)
  {
    hide Pow2, First, Be, Begins, Fits;
    forall m: nat, kk: nat, p: nat | 1 <= m && Off(l, m) < kk <= g && Begins(c, kk, Off(l, m), p)
        && Earlier(c, k, r + 1, kk, Off(l, m), p)
      ensures Fits(c, kk, Off(l, m), p, l)
    {
      if kk == k && p * Pow2(k - Off(l, m)) == First(c, k) + r {
        ZeroTail(cur, Off(l, m), p);
        if nh <= m { OffMono(l, nh, m); }
      }
    }
  }

  // The next code has a one below every level that is kept.
  lemma SettledCode(c: seq<nat>, l: nat, nh: nat, cur: seq<bool>, nh': nat, next: seq<bool>, r: nat)
    requires |next| == |cur| && Be(next) == Be(cur) + 1 && 1 <= nh' <= nh
    requires Off(l, nh' - 1) <= |cur| && next[..Off(l, nh' - 1)] == cur[..Off(l, nh' - 1)]
    ensures Settled(c, l, nh', next, r)
  {
    hide Be, Fits;
    forall m | 1 <= m < nh' && Off(l, m) < |next| < |c| ensures !ZeroFrom(next, Off(l, m)) {
      OffMono(l, m, nh' - 1);
      ShorterPrefix(next, cur, Off(l, nh' - 1), Off(l, m));
      PrefixAfter(cur, next, Off(l, m));
    }
  }

  lemma TailStays(cur: seq<bool>, w: nat)
    ensures ZeroFrom(cur + [false], w) ==> ZeroFrom(cur, w)
  {
    var cur' := cur + [false];
    if ZeroFrom(cur', w) {
      forall j | w <= j < |cur| ensures !cur[j] { assert !cur'[j]; }
    }
  }

  lemma SettledLength(c: seq<nat>, l: nat, nh: nat, cur: seq<bool>, r: nat)
    requires Settled(c, l, nh, cur, r) && |cur| < |c| && r >= c[|cur|]
             && (forall m :: 1 <= m < nh ==> Off(l, m) < |cur|)
    ensures Settled(c, l, nh, cur + [false], 0)
  {
    hide Be, Fits;
    var cur' := cur + [false];
    forall m | 1 <= m < nh && Off(l, m) < |cur'| < |c| ensures !ZeroFrom(cur', Off(l, m)) {
      TailStays(cur, Off(l, m));
    }
  }

  lemma SettledLevel(c: seq<nat>, l: nat, nh: nat, cur: seq<bool>, r: nat)
    requires Settled(c, l, nh, cur, r) && Off(l, nh) < |cur| < |c| && r < c[|cur|]
    requires nh >= 1 ==> Fits(c, |cur|, Off(l, nh), Be(cur[..Off(l, nh)]), l)
    ensures Settled(c, l, nh + 1, cur, r)
  {
    hide Be, Fits;
  }

  // ---- what a lookup meets ----

  // Looking up bs from a table indexed by lb bits comes to entry i of table q.
  ghost predicate Meets(T: Tabs, t: int, lb: nat, bs: seq<bool>, q: int, i: nat)
    decreases |bs|
  {
    && t in T && lb <= |bs| && Num(bs[..lb]) < |T[t].ent|
    && (|| (t == q && i == Num(bs[..lb]))
        || var r := T[t].ent[Num(bs[..lb])]; !IsLeaf(r) && 0 < r.b <= lb && Meets(T, r.v, r.e - 16, bs[r.b..], q, i))
  }

  lemma {:induction false} PathMeets(T: Tabs, M: Nodes, g: nat, l: nat, hole: Hole, i: nat)
    requires Path(T, M, g, l, hole) && 1 <= l && i < |hole.path|
    ensures hole.path[i] in M && Off(l, i) <= g
    ensures var q := hole.path[|hole.path| - 1];
            q in M && Serves(M[q], hole.bs) && Meets(T, hole.path[i], M[hole.path[i]].lb, hole.bs[Off(l, i)..], q,
              Index(M[q], hole.bs))
    decreases |hole.path| - i
  {
    hide Num, Path;
    PathAt(T, M, g, l, hole, i);
    PathSize(T, M, g, l, hole);
    var w, bs := Off(l, i), hole.bs;
    if i + 1 < |hole.path| {
      PathMeets(T, M, g, l, hole, i + 1);
      OffNext(l, i);
      assert bs[w..][..l] == bs[w..w + l] && bs[w..][l..] == bs[w + l..];
    } else {
      var lb := M[hole.path[i]].lb;
      assert bs[w..][..lb] == bs[w..w + lb];
    }
  }

  // What the lookup gives is then up to that entry.
  lemma {:induction false} MeetsDecides(T: Tabs, t: int, lb: nat, bs: seq<bool>, q: int, i: nat)
    requires Meets(T, t, lb, bs, q, i)
    ensures q in T && i < |T[q].ent|
    ensures IsLeaf(T[q].ent[i]) ==>
              var x := Lookup(T, t, lb, bs); x.None? || (x.value.e == T[q].ent[i].e && x.value.v == T[q].ent[i].v)
    decreases |bs|
  {
    hide Num;
    if !(t == q && i == Num(bs[..lb])) {
      var r := T[t].ent[Num(bs[..lb])];
      MeetsDecides(T, r.v, r.e - 16, bs[r.b..], q, i);
    }
  }
}
