// The circular free list of loader/src/alloc.c as it lies in memory: headers with
// Next and McbSize fields, linked in address order from Base and back to it.
module FreeList {
  import opened HeapLayout

  // The free blocks in address order.
  function Frees(L: Layout): Layout
  {
    if L == [] then []
    else if L[0].free then [L[0]] + Frees(L[1..])
    else Frees(L[1..])
  }

  lemma {:induction false} FreesAppend(a: Layout, b: Layout)
    ensures Frees(a + b) == Frees(a) + Frees(b)
  {
    if a == [] {
      assert a + b == b;
    } else {
      FreesAppend(a[1..], b);
      assert (a + b)[1..] == a[1..] + b;
    }
  }

  lemma {:induction false} FreesMembers(L: Layout, b: Block)
    ensures b in Frees(L) <==> b in L && b.free
  {
    if L != [] {
      FreesMembers(L[1..], b);
      assert L == [L[0]] + L[1..];
    }
  }

  lemma FreesOne(b: Block)
    ensures Frees([b]) == if b.free then [b] else []
  {
    assert [b][1..] == [];
  }

  lemma FreesReplace(L: Layout, i: nat, j: nat, m: Layout)
    requires i <= j <= |L|
    ensures Frees(Replace(L, i, j, m)) == Frees(L[..i]) + Frees(m) + Frees(L[j..])
  {
    FreesAppend(L[..i] + m, L[j..]);
    FreesAppend(L[..i], m);
  }

  lemma {:induction false} FreesAround(L: Layout, j: nat)
    requires j < |L|
    ensures Frees(L) == Frees(L[..j]) + (if L[j].free then [L[j]] else []) + Frees(L[j + 1..])
  {
    if j > 0 {
      var R := L[1..];
      FreesAround(R, j - 1);
      assert L[..j][1..] == R[..j - 1] && L[j + 1..] == R[j..];
    }
  }

  // Where the m-th free block stands in the layout.
  lemma {:induction false} FreesIndex(L: Layout, m: nat) returns (j: nat)
    requires m < |Frees(L)|
    ensures j < |L| && L[j] == Frees(L)[m] && L[j].free
    ensures Frees(L[..j]) == Frees(L)[..m] && Frees(L[j + 1..]) == Frees(L)[m + 1..]
  {
    if L[0].free && m == 0 {
      j := 0;
      assert L[..0] == [];
    } else {
      var k := FreesIndex(L[1..], if L[0].free then m - 1 else m);
      j := k + 1;
      assert L[..j] == [L[0]] + L[1..][..k];
      FreesAppend([L[0]], L[1..][..k]);
      FreesOne(L[0]);
      assert L[j + 1..] == L[1..][k + 1..];
    }
  }

  ghost predicate Sorted(F: Layout)
  {
    && (forall m :: 0 <= m < |F| ==> InArena(F[m]))
    && (forall m, n :: 0 <= m < n < |F| ==> F[m].Pos() < F[n].Pos())
  }

  lemma FreesSorted(L: Layout)
    requires Tiled(L)
    ensures Sorted(Frees(L))
  {
    var F := Frees(L);
    forall m | 0 <= m < |F| ensures InArena(F[m]) {
      FreesMembers(L, F[m]);
      assert F[m] in F;
    }
    forall m, n | 0 <= m < n < |F| ensures F[m].Pos() < F[n].Pos() {
      var j := FreesIndex(L, n);
      assert F[m] == F[..n][m];
      assert F[m] in Frees(L[..j]);
      FreesMembers(L[..j], F[m]);
      var i :| 0 <= i < j && L[i] == F[m];
      Ordered(L, i, j);
    }
  }

  // ---- the list in memory ----

  // Base lies outside the arenas, and is not the unit just before the first one.
  predicate Placed(base: int, heap: int)
  {
    base > 0 && heap > 0 && (base + UNIT < heap || base >= heap + STRIDE * ARENAS)
  }

  // Address of the m-th free block; the list starts and ends at Base.
  function At(F: Layout, m: int, base: int, heap: int): int
  {
    if 0 <= m < |F| then F[m].Addr(heap) else base
  }

  lemma AtApart(F: Layout, base: int, heap: int, m: int, n: int)
    requires Sorted(F) && Placed(base, heap) && -1 <= m < n <= |F| && (n < |F| || m >= 0)
    ensures At(F, m, base, heap) != At(F, n, base, heap)
    ensures 0 <= m && n < |F| ==> At(F, m, base, heap) < At(F, n, base, heap)
  {
    if 0 <= m && n < |F| { AddrOrder(F[m], F[n], heap); }
    if m >= 0 { AddrOrder(F[m], F[m], heap); }
    if n < |F| { AddrOrder(F[n], F[n], heap); }
  }

  ghost predicate NodeOk(next: map<int, int>, size: map<int, int>, F: Layout, base: int, heap: int, m: int)
  {
    var a := At(F, m, base, heap);
    && a in next && a in size
    && next[a] == At(F, m + 1, base, heap)
    && size[a] == if 0 <= m < |F| then F[m].size else 1
  }

  // Base, then the free blocks in order, then Base again.
  ghost predicate Linked(next: map<int, int>, size: map<int, int>, F: Layout, base: int, heap: int)
  {
    forall m {:trigger NodeOk(next, size, F, base, heap, m)} ::
      -1 <= m < |F| ==> NodeOk(next, size, F, base, heap, m)
  }

  // Live blocks point to themselves (the audit check of free).
  ghost predicate LiveHeaders(next: map<int, int>, size: map<int, int>, L: Layout, heap: int)
  {
    forall b :: b in L && !b.free ==> LiveHeader(next, size, b.Addr(heap), b.size)
  }

  ghost predicate LiveHeader(next: map<int, int>, size: map<int, int>, a: int, n: nat)
  {
    a in next && a in size && next[a] == a && size[a] == n
  }

  // Taking block c off the list.
  lemma RemoveNode(next: map<int, int>, size: map<int, int>, F: Layout, base: int, heap: int, c: nat, m: int)
    requires Sorted(F) && Placed(base, heap) && Linked(next, size, F, base, heap) && c < |F|
    requires -1 <= m < |F| - 1 && At(F, c, base, heap) in next
    ensures var pre, cur := At(F, c - 1, base, heap), At(F, c, base, heap);
            NodeOk(next[pre := next[cur]][cur := cur], size, F[..c] + F[c + 1..], base, heap, m)
  {
    hide Sorted, Linked;
    var G := F[..c] + F[c + 1..];
    NodeAt(next, size, F, base, heap, c);
    if m < c - 1 {
      NodeAt(next, size, F, base, heap, m);
      AtApart(F, base, heap, m, c);
      AtApart(F, base, heap, m, c - 1);
      assert At(G, m, base, heap) == At(F, m, base, heap) && At(G, m + 1, base, heap) == At(F, m + 1, base, heap);
    } else if m == c - 1 {
      NodeAt(next, size, F, base, heap, m);
      AtApart(F, base, heap, m, c);
      assert At(G, m, base, heap) == At(F, m, base, heap) && At(G, m + 1, base, heap) == At(F, m + 2, base, heap);
    } else {
      NodeAt(next, size, F, base, heap, m + 1);
      AtApart(F, base, heap, c, m + 1);
      AtApart(F, base, heap, c - 1, m + 1);
      assert At(G, m, base, heap) == At(F, m + 1, base, heap) && At(G, m + 1, base, heap) == At(F, m + 2, base, heap);
    }
  }

  lemma NodeAt(next: map<int, int>, size: map<int, int>, F: Layout, base: int, heap: int, m: int)
    requires Linked(next, size, F, base, heap) && -1 <= m < |F|
    ensures NodeOk(next, size, F, base, heap, m)
  {
  }

  lemma LinkedRemove(next: map<int, int>, size: map<int, int>, F: Layout, base: int, heap: int, c: nat)
    requires Sorted(F) && Placed(base, heap) && Linked(next, size, F, base, heap) && c < |F|
    ensures var pre, cur := At(F, c - 1, base, heap), At(F, c, base, heap);
            && pre in next && cur in next && pre != cur && next[cur] == At(F, c + 1, base, heap)
            && Linked(next[pre := next[cur]][cur := cur], size, F[..c] + F[c + 1..], base, heap)
  {
    var pre, cur, G := At(F, c - 1, base, heap), At(F, c, base, heap), F[..c] + F[c + 1..];
    NodeAt(next, size, F, base, heap, c);
    NodeAt(next, size, F, base, heap, c - 1);
    AtApart(F, base, heap, c - 1, c);
    var next' := next[pre := next[cur]][cur := cur];
    forall m | -1 <= m < |G| ensures NodeOk(next', size, G, base, heap, m) {
      RemoveNode(next, size, F, base, heap, c, m);
    }
  }

  // Shrinking block c in place.
  lemma LinkedShrink(next: map<int, int>, size: map<int, int>, F: Layout, base: int, heap: int, c: nat, n: nat,
                     cut: int)
    requires Sorted(F) && Placed(base, heap) && Linked(next, size, F, base, heap) && c < |F|
    requires forall m :: -1 <= m < |F| ==> At(F, m, base, heap) != cut
    ensures Linked(next[cut := cut], size[At(F, c, base, heap) := n][cut := F[c].size - n],
                   F[c := F[c].(size := n)], base, heap)
  {
    var next', size' := next[cut := cut], size[At(F, c, base, heap) := n][cut := F[c].size - n];
    var G := F[c := F[c].(size := n)];
    forall m | -1 <= m < |G| ensures NodeOk(next', size', G, base, heap, m) {
      assert NodeOk(next, size, F, base, heap, m);
      assert At(G, m, base, heap) == At(F, m, base, heap);
      assert At(G, m + 1, base, heap) == At(F, m + 1, base, heap);
      if m < c { AtApart(F, base, heap, m, c); }
      if m > c { AtApart(F, base, heap, c, m); }
    }
  }

  function Insert(F: Layout, f: nat, b: Block): Layout
    requires f <= |F|
  {
    F[..f] + [b] + F[f..]
  }

  // Linking b between block f-1 and block f.
  lemma InsertNode(next: map<int, int>, size: map<int, int>, F: Layout, base: int, heap: int, f: nat, b: Block, m: int)
    requires Placed(base, heap) && Linked(next, size, F, base, heap) && f <= |F|
    requires Sorted(Insert(F, f, b)) && -1 <= m <= |F|
    requires b.Addr(heap) in size && size[b.Addr(heap)] == b.size && At(F, f - 1, base, heap) in next
    ensures var p, cur := At(F, f - 1, base, heap), b.Addr(heap);
            NodeOk(next[cur := next[p]][p := cur], size, Insert(F, f, b), base, heap, m)
  {
    hide Sorted, Linked;
    var G := Insert(F, f, b);
    assert At(G, f - 1, base, heap) == At(F, f - 1, base, heap) && At(G, f, base, heap) == b.Addr(heap);
    NodeAt(next, size, F, base, heap, f - 1);
    AtApart(G, base, heap, f - 1, f);
    if m < f - 1 {
      NodeAt(next, size, F, base, heap, m);
      AtApart(G, base, heap, m, f);
      AtApart(G, base, heap, m, f - 1);
      assert At(G, m, base, heap) == At(F, m, base, heap) && At(G, m + 1, base, heap) == At(F, m + 1, base, heap);
    } else if m == f {
      assert At(G, m + 1, base, heap) == At(F, m, base, heap);
    } else if m > f {
      NodeAt(next, size, F, base, heap, m - 1);
      AtApart(G, base, heap, f, m);
      AtApart(G, base, heap, f - 1, m);
      assert At(G, m, base, heap) == At(F, m - 1, base, heap) && At(G, m + 1, base, heap) == At(F, m, base, heap);
    }
  }

  lemma LinkedInsert(next: map<int, int>, size: map<int, int>, F: Layout, base: int, heap: int, f: nat, b: Block)
    requires Placed(base, heap) && Linked(next, size, F, base, heap) && f <= |F|
    requires Sorted(Insert(F, f, b))
    requires b.Addr(heap) in size && size[b.Addr(heap)] == b.size
    ensures var p, cur := At(F, f - 1, base, heap), b.Addr(heap);
            && p in next && next[p] == At(F, f, base, heap) && p != cur
            && Linked(next[cur := next[p]][p := cur], size, Insert(F, f, b), base, heap)
  {
    var p, cur, G := At(F, f - 1, base, heap), b.Addr(heap), Insert(F, f, b);
    NodeAt(next, size, F, base, heap, f - 1);
    assert At(G, f - 1, base, heap) == p && At(G, f, base, heap) == cur;
    AtApart(G, base, heap, f - 1, f);
    var next' := next[cur := next[p]][p := cur];
    forall m | -1 <= m < |G| ensures NodeOk(next', size, G, base, heap, m) {
      InsertNode(next, size, F, base, heap, f, b, m);
    }
  }

  function Fuse(F: Layout, c: nat): Layout
    requires c + 1 < |F|
  {
    F[..c] + [Joined(F[c], F[c + 1])] + F[c + 2..]
  }

  // Letting block c absorb its successor in the list.
  lemma LinkedFuse(next: map<int, int>, size: map<int, int>, F: Layout, base: int, heap: int, c: nat)
    requires Sorted(F) && Placed(base, heap) && Linked(next, size, F, base, heap) && c + 1 < |F|
    ensures var a, b := At(F, c, base, heap), At(F, c + 1, base, heap);
            && a in next && b in next && next[a] == b && b != a
            && Linked(next[a := next[b]], size[a := F[c].size + F[c + 1].size], Fuse(F, c), base, heap)
  {
    var a, b := At(F, c, base, heap), At(F, c + 1, base, heap);
    assert NodeOk(next, size, F, base, heap, c) && NodeOk(next, size, F, base, heap, c + 1);
    AtApart(F, base, heap, c, c + 1);
    var next', size', G := next[a := next[b]], size[a := F[c].size + F[c + 1].size], Fuse(F, c);
    forall m | -1 <= m < |G| ensures NodeOk(next', size', G, base, heap, m) {
      var o := if m <= c then m else m + 1;
      assert NodeOk(next, size, F, base, heap, o);
      assert At(G, m, base, heap) == At(F, o, base, heap);
      if o < c { AtApart(F, base, heap, o, c); }
      if o > c { AtApart(F, base, heap, c, o); }
      assert At(G, m + 1, base, heap) == At(F, if m + 1 <= c then m + 1 else m + 2, base, heap);
    }
  }

  lemma FuseSorted(F: Layout, c: nat)
    requires Sorted(F) && c + 1 < |F| && Touch(F[c], F[c + 1])
    ensures Sorted(Fuse(F, c))
  {
    var G := Fuse(F, c);
    assert forall m :: 0 <= m < |G| && m != c ==> G[m] == F[if m < c then m else m + 1];
    assert G[c].Pos() == F[c].Pos();
  }

  // Freeing b between f-1 and f, as the list sees it: b joins the next block if they
  // touch, then the previous block absorbs the result if they touch.
  function FreeBefore(F: Layout, f: nat, b: Block): Layout
    requires f <= |F|
  {
    var G := Insert(F, f, b);
    if f < |F| && Touch(b, F[f]) then Fuse(G, f) else G
  }

  function FreeInto(F: Layout, f: nat, b: Block): Layout
    requires f <= |F|
  {
    var G := FreeBefore(F, f, b);
    if f > 0 && Touch(F[f - 1], b) then Fuse(G, f - 1) else G
  }

  lemma InsertFrees(L: Layout, j: nat)
    requires Tiled(L) && j < |L| && !L[j].free
    ensures var f, b, A := |Frees(L[..j])|, L[j].(free := true), L[j := L[j].(free := true)];
            && f <= |Frees(L)|
            && Frees(L)[..f] == Frees(L[..j]) && Frees(L)[f..] == Frees(L[j + 1..])
            && Frees(A) == Insert(Frees(L), f, b) && Tiled(A)
  {
    var b := L[j].(free := true);
    FreesAround(L, j);
    FreesOne(b);
    assert L[j := b] == Replace(L, j, j + 1, [b]);
    FreesReplace(L, j, j + 1, [b]);
    ReplaceTiled(L, j, j + 1, [b]);
  }

  lemma FreesPair(A: Layout, j: nat)
    requires j + 1 < |A| && A[j].free && A[j + 1].free
    ensures Frees(A) == Frees(A[..j]) + [A[j], A[j + 1]] + Frees(A[j + 2..])
  {
    var m := [A[j], A[j + 1]];
    assert A == Replace(A, j, j + 2, m);
    FreesReplace(A, j, j + 2, m);
    FreesAppend([A[j]], [A[j + 1]]);
    FreesOne(A[j]);
    FreesOne(A[j + 1]);
    assert m == [A[j]] + [A[j + 1]];
  }

  lemma FuseFrees(A: Layout, j: nat)
    requires Tiled(A) && CanMerge(A, j)
    ensures var f := |Frees(A[..j])|;
            && f + 1 < |Frees(A)| && Frees(A)[f] == A[j] && Frees(A)[f + 1] == A[j + 1]
            && Frees(A)[..f] == Frees(A[..j])
            && Frees(Merge(A, j)) == Fuse(Frees(A), f)
  {
    var X, Y, c := Frees(A[..j]), Frees(A[j + 2..]), Joined(A[j], A[j + 1]);
    FreesPair(A, j);
    MergeIsReplace(A, j);
    FreesReplace(A, j, j + 2, [c]);
    FreesOne(c);
    FuseMiddle(X, A[j], A[j + 1], Y);
  }

  lemma FuseMiddle(X: Layout, a: Block, b: Block, Y: Layout)
    ensures Fuse(X + [a, b] + Y, |X|) == X + [Joined(a, b)] + Y
  {
  }

  // A free block that touches a block is its neighbour in the layout.
  lemma NeighbourMerges(A: Layout, j: nat, m: nat)
    requires Tiled(A) && j < |A| && A[j].free && m < |Frees(A)|
    ensures Touch(A[j], Frees(A)[m]) ==> CanMerge(A, j) && A[j + 1] == Frees(A)[m]
    ensures Touch(Frees(A)[m], A[j]) ==> CanMerge(A, j - 1) && A[j - 1] == Frees(A)[m]
  {
    var i := FreesIndex(A, m);
    if Touch(A[j], A[i]) { TouchAdjacent(A, j, i); }
    if Touch(A[i], A[j]) { TouchAdjacent(A, i, j); }
  }

  // Releasing block j of the layout is FreeInto on the list.
  lemma FreedFrees(L: Layout, j: nat)
    requires Tiled(L) && j < |L| && !L[j].free
    ensures var f, b := |Frees(L[..j])|, L[j].(free := true);
            f <= |Frees(L)| && Frees(Freed(L, j)) == FreeInto(Frees(L), f, b)
  {
    var F, f, b := Frees(L), |Frees(L[..j])|, L[j].(free := true);
    var A := L[j := b];
    InsertFrees(L, j);
    assert A[..j] == L[..j];
    MergeKeeps(A, j);
    FreeBeforeFrees(A, j, F, f);
    FreeIntoFrees(Merge(A, j), j, F, f, b);
  }

  lemma FreeIntoFrees(B: Layout, j: nat, F: Layout, f: nat, b: Block)
    requires Tiled(B) && j < |B| && B[j].free && f <= |F|
    requires B[j].arena == b.arena && B[j].off == b.off
    requires f == |Frees(B[..j])| && Frees(B) == FreeBefore(F, f, b)
    ensures Frees(Merge(B, j - 1)) == FreeInto(F, f, b)
  {
    hide Frees, Tiled;
    if f > 0 {
      assert Frees(B)[f - 1] == F[f - 1];
      NeighbourMerges(B, j, f - 1);
    }
    if CanMerge(B, j - 1) {
      assert B[..j] == B[..j - 1] + [B[j - 1]];
      FreesAppend(B[..j - 1], [B[j - 1]]);
      FreesOne(B[j - 1]);
      FuseFrees(B, j - 1);
    }
  }

  lemma FreeBeforeFrees(A: Layout, j: nat, F: Layout, f: nat)
    requires Tiled(A) && j < |A| && A[j].free && f <= |F|
    requires f == |Frees(A[..j])| && Frees(A) == Insert(F, f, A[j])
    ensures Frees(Merge(A, j)) == FreeBefore(F, f, A[j])
    ensures j < |Merge(A, j)| && Merge(A, j)[j].free
    ensures Merge(A, j)[j].arena == A[j].arena && Merge(A, j)[j].off == A[j].off
    ensures Merge(A, j)[..j] == A[..j]
  {
    if f < |F| {
      assert Frees(A)[f + 1] == F[f];
      NeighbourMerges(A, j, f + 1);
    }
    if CanMerge(A, j) { FuseFrees(A, j); }
  }
}
