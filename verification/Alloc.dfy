// malloc and free of loader/src/alloc.c.
module Alloc {
  import opened HeapLayout
  import opened FreeList

  // BTOU: units for nb bytes, and one for the header.
  function Units(nb: nat): nat { (nb + UNIT - 1) / UNIT + 1 }

  // A free block with room for nb bytes behind its header.
  predicate Roomy(b: Block, nb: nat) { b.free && UNIT * (b.size - 1) >= nb }

  lemma UnitsRoomy(b: Block, nb: nat)
    ensures b.free && b.size >= Units(nb) <==> Roomy(b, nb)
    ensures nb <= UNIT * (Units(nb) - 1) < nb + UNIT
  {
  }

  // b is cut from the end of the lowest block of L with room for nb bytes, as small as possible; the
  // rest stays free if it is two units or more, and otherwise b is the whole block.
  ghost predicate Served(L: Layout, L': Layout, j: nat, b: Block, nb: nat)
  {
    && j < |L| && Roomy(L[j], nb) && (forall i :: 0 <= i < j ==> !Roomy(L[i], nb))
    && nb <= UNIT * (b.size - 1) < nb + 2 * UNIT
    && !b.free && b.arena == L[j].arena && b.off + b.size == L[j].off + L[j].size
    && (if b.size == L[j].size then L' == L[j := b]
        else
          && UNIT * (b.size - 1) < nb + UNIT && b.size + 2 <= L[j].size
          && L' == L[..j] + [L[j].(size := L[j].size - b.size), b] + L[j + 1..])
  }

  lemma FitServes(L: Layout, nb: nat)
    requires nb > 0
    ensures var j := FirstFit(L, Units(nb), 0);
            && (j == |L| <==> forall i :: 0 <= i < |L| ==> !Roomy(L[i], nb))
            && (j < |L| ==> Served(L, Take(L, j, Units(nb)), j, Taken(L[j], Units(nb)), nb))
  {
    hide Units;
    forall b: Block ensures b.free && b.size >= Units(nb) <==> Roomy(b, nb) { UnitsRoomy(b, nb); }
    var j := FirstFit(L, Units(nb), 0);
    if j < |L| {
      assert Roomy(L[j], nb);
      UnitsRoomy(L[j], nb);
    }
  }

  // A fresh heap serves requests of up to 8172 bytes.
  lemma FreshHeap(nb: nat)
    ensures (exists i :: 0 <= i < |Initial()| && Roomy(Initial()[i], nb)) <==> nb <= 8172
  {
    assert Initial()[0] == Block(0, 0, ARENA_UNITS, true);
  }

  // Which blocks are handed out, by the address the caller holds.
  ghost predicate LiveTied(live: map<int, Block>, L: Layout, heap: int)
  {
    && (forall p :: p in live ==> live[p] in L && !live[p].free && live[p].Addr(heap) + UNIT == p)
    && (forall b :: b in L && !b.free ==> b.Addr(heap) + UNIT in live && live[b.Addr(heap) + UNIT] == b)
  }

  lemma MemberApart(L: Layout, a: Block, b: Block, heap: int)
    requires Tiled(L) && a in L && b in L && a != b
    ensures a.Addr(heap) != b.Addr(heap)
  {
    var i :| 0 <= i < |L| && L[i] == a;
    var j :| 0 <= j < |L| && L[j] == b;
    AddrOrder(a, b, heap);
    if i < j { Ordered(L, i, j); } else { Ordered(L, j, i); }
  }

  lemma MemberOutsideBase(L: Layout, b: Block, base: int, heap: int)
    requires Tiled(L) && Placed(base, heap) && b in L
    ensures b.Addr(heap) != base && b.Addr(heap) + UNIT * b.size != base && base + UNIT != b.Addr(heap)
    ensures base < heap ==> base < b.Addr(heap)
    ensures base > heap ==> b.Addr(heap) < base
    ensures b.Addr(heap) > 0
  {
    AddrOrder(b, b, heap);
  }

  // ---- which blocks are live after an operation ----

  lemma ReplaceMembers(L: Layout, i: nat, j: nat, m: Layout, b: Block)
    requires i <= j <= |L|
    ensures b in Replace(L, i, j, m) <==> b in L[..i] || b in m || b in L[j..]
  {
  }

  lemma MembersAround(L: Layout, i: nat, j: nat, b: Block)
    requires i <= j <= |L|
    ensures b in L <==> b in L[..i] || b in L[i..j] || b in L[j..]
  {
    assert L == L[..i] + L[i..j] + L[j..];
  }

  lemma TakeLive(L: Layout, j: nat, nu: nat, b: Block)
    requires Tiled(L) && j < |L| && L[j].free && nu <= L[j].size && !b.free
    ensures b in Take(L, j, nu) <==> b in L || b == Taken(L[j], nu)
  {
    TakeIsReplace(L, j, nu);
    ReplaceMembers(L, j, j + 1, TakeParts(L[j], nu), b);
    MembersAround(L, j, j + 1, b);
    assert L[j..j + 1] == [L[j]];
  }

  lemma MergeLive(L: Layout, j: int, b: Block)
    requires Tiled(L) && !b.free
    ensures b in Merge(L, j) <==> b in L
  {
    if CanMerge(L, j) {
      MergeIsReplace(L, j);
      ReplaceMembers(L, j, j + 2, [Joined(L[j], L[j + 1])], b);
      MembersAround(L, j, j + 2, b);
      assert L[j..j + 2] == [L[j], L[j + 1]];
    }
  }

  lemma FreedLive(L: Layout, j: nat, b: Block)
    requires Tiled(L) && j < |L| && !L[j].free && !b.free
    ensures b in Freed(L, j) <==> b in L && b != L[j]
  {
    var A := L[j := L[j].(free := true)];
    InsertFrees(L, j);
    MergeKeeps(A, j);
    MergeLive(Merge(A, j), j - 1, b);
    MergeLive(A, j, b);
    if b in L {
      var i :| 0 <= i < |L| && L[i] == b;
      assert i != j ==> A[i] == b;
      if b == L[j] {
        if b in A {
          var n :| 0 <= n < |A| && A[n] == b;
          SamePosSameIndex(L, n, j);
        }
      }
    }
    if b in A {
      var n :| 0 <= n < |A| && A[n] == b;
      assert n != j && L[n] == b;
    }
  }

  // ---- first fit, seen through the list ----

  lemma FitAt(L: Layout, nu: nat, m: nat) returns (j: nat)
    requires m < |Frees(L)| && Frees(L)[m].size >= nu
    requires forall i :: 0 <= i < m ==> Frees(L)[i].size < nu
    ensures j == FirstFit(L, nu, 0) && j < |L| && L[j] == Frees(L)[m] && L[j].free
    ensures Frees(L[..j]) == Frees(L)[..m] && Frees(L[j + 1..]) == Frees(L)[m + 1..]
  {
    j := FreesIndex(L, m);
    forall k | 0 <= k < j && L[k].free ensures L[k].size < nu {
      assert L[..j][k] in L[..j];
      FreesMembers(L[..j], L[k]);
      var i :| 0 <= i < m && Frees(L)[..m][i] == L[k];
      assert Frees(L)[i] == L[k];
    }
  }

  lemma NoFit(L: Layout, nu: nat)
    requires forall i :: 0 <= i < |Frees(L)| ==> Frees(L)[i].size < nu
    ensures FirstFit(L, nu, 0) == |L|
  {
    var k := FirstFit(L, nu, 0);
    if k < |L| {
      assert L[k] in L;
      FreesMembers(L, L[k]);
    }
  }

  lemma TakeFrees(L: Layout, j: nat, nu: nat, m: nat)
    requires j < |L| && L[j].free && 1 <= nu <= L[j].size && m < |Frees(L)|
    requires Frees(L[..j]) == Frees(L)[..m] && Frees(L[j + 1..]) == Frees(L)[m + 1..]
    ensures Frees(Take(L, j, nu)) ==
            if L[j].size <= nu + 1 then Frees(L)[..m] + Frees(L)[m + 1..]
            else Frees(L)[m := L[j].(size := L[j].size - nu)]
  {
    hide Frees, TakeParts;
    TakeIsReplace(L, j, nu);
    FreesReplace(L, j, j + 1, TakeParts(L[j], nu));
    PartsFrees(L[j], nu);
    var F := Frees(L);
    if L[j].size > nu + 1 {
      var c := L[j].(size := L[j].size - nu);
      assert F[m := c] == F[..m] + [c] + F[m + 1..];
    } else {
      assert F[..m] + [] + F[m + 1..] == F[..m] + F[m + 1..];
    }
  }

  lemma PartsFrees(b: Block, nu: nat)
    requires b.free && nu <= b.size
    ensures Frees(TakeParts(b, nu)) == if b.size <= nu + 1 then [] else [b.(size := b.size - nu)]
  {
    FreesOne(Taken(b, nu));
    if b.size > nu + 1 {
      var c := b.(size := b.size - nu);
      FreesOne(c);
      FreesAppend([c], [Taken(b, nu)]);
      assert TakeParts(b, nu) == [c] + [Taken(b, nu)];
    }
  }

  // ---- the list around a live block ----

  lemma ListAround(L: Layout, j: nat, m: nat)
    requires Tiled(L) && j < |L| && !L[j].free && m < |Frees(L)|
    ensures m < |Frees(L[..j])| <==> Frees(L)[m].Pos() < L[j].Pos()
    ensures Frees(L)[m].Pos() != L[j].Pos()
  {
    hide Frees;
    var F, f := Frees(L), |Frees(L[..j])|;
    InsertFrees(L, j);
    var i := FreesIndex(L, m);
    assert i != j;
    if m < f {
      assert F[m] == F[..f][m];
      FreesMembers(L[..j], F[m]);
      var n :| 0 <= n < j && L[n] == F[m];
      Ordered(L, n, j);
    } else {
      assert F[m] == F[f..][m - f];
      FreesMembers(L[j + 1..], F[m]);
      var n :| 0 <= n < |L[j + 1..]| && L[j + 1..][n] == F[m];
      assert L[j + 1 + n] == F[m];
      Ordered(L, j, j + 1 + n);
    }
  }

  lemma InsertSorted(L: Layout, j: nat)
    requires Tiled(L) && j < |L| && !L[j].free
    ensures |Frees(L[..j])| <= |Frees(L)|
    ensures Sorted(Frees(L)) && Sorted(Insert(Frees(L), |Frees(L[..j])|, L[j].(free := true)))
  {
    InsertFrees(L, j);
    FreesSorted(L);
    FreesSorted(L[j := L[j].(free := true)]);
  }

  // ---- initial list ----

  lemma InitialApart(base: int, heap: int, i: nat)
    requires Placed(base, heap) && i <= ARENAS
    ensures forall m :: -1 <= m < i - 1 ==> At(Initial(), m, base, heap) != At(Initial(), i - 1, base, heap)
    ensures i < ARENAS ==> At(Initial(), i, base, heap) == heap + STRIDE * i
    ensures i < ARENAS ==> forall m :: -1 <= m < i ==> At(Initial(), m, base, heap) != heap + STRIDE * i
  {
    assert forall m :: 0 <= m < ARENAS ==> At(Initial(), m, base, heap) == heap + STRIDE * m;
  }

  lemma {:induction false} AllFree(L: Layout)
    requires forall b :: b in L ==> b.free
    ensures Frees(L) == L
  {
    if L != [] {
      assert L[0] in L;
      AllFree(L[1..]);
    }
  }

  lemma InitialFrees()
    ensures Frees(Initial()) == Initial()
  {
    AllFree(Initial());
  }

  // ---- the other live headers are left alone ----

  lemma LiveKept(next: map<int, int>, size: map<int, int>, L: Layout, b: Block, heap: int)
    requires LiveHeaders(next, size, L, heap) && b in L && !b.free
    ensures LiveHeader(next, size, b.Addr(heap), b.size)
  {
  }

  // A live block is neither Base nor a node of the free list.
  lemma LiveOffList(L: Layout, b: Block, m: int, base: int, heap: int)
    requires Tiled(L) && Placed(base, heap) && b in L && !b.free
    ensures b.Addr(heap) != At(Frees(L), m, base, heap)
  {
    MemberOutsideBase(L, b, base, heap);
    if 0 <= m < |Frees(L)| {
      FreesMembers(L, Frees(L)[m]);
      MemberApart(L, b, Frees(L)[m], heap);
    }
  }

  lemma LiveAfterWhole(next: map<int, int>, size: map<int, int>, L: Layout, heap: int, base: int, m: nat, j: nat,
                       nu: nat, b: Block)
    requires Tiled(L) && Placed(base, heap) && LiveHeaders(next, size, L, heap)
    requires j < |L| && L[j].free && nu <= L[j].size <= nu + 1 && m < |Frees(L)| && Frees(L)[m] == L[j]
    requires L[j].Addr(heap) in next && L[j].Addr(heap) in size && size[L[j].Addr(heap)] == L[j].size
    requires b in Take(L, j, nu) && !b.free
    ensures var pre, cur := At(Frees(L), m - 1, base, heap), L[j].Addr(heap);
            LiveHeader(next[pre := next[cur]][cur := cur], size, b.Addr(heap), b.size)
  {
    hide Take, Frees, LiveHeaders, Tiled;
    TakeLive(L, j, nu, b);
    if b != Taken(L[j], nu) {
      LiveKept(next, size, L, b, heap);
      MemberApart(L, b, L[j], heap);
      LiveOffList(L, b, m - 1, base, heap);
    }
  }

  // The carved block's header lies strictly inside the free block.
  lemma CutApart(L: Layout, j: nat, nu: nat, m: nat, base: int, heap: int)
    requires Tiled(L) && Placed(base, heap) && j < |L| && L[j].free && 1 <= nu && nu + 1 < L[j].size
    requires m < |Frees(L)| && Frees(L)[m] == L[j]
    ensures forall b :: b in L ==> b.Addr(heap) != Taken(L[j], nu).Addr(heap)
    ensures forall i :: -1 <= i < |Frees(L)| ==> At(Frees(L), i, base, heap) != Taken(L[j], nu).Addr(heap)
    ensures Taken(L[j], nu).Addr(heap) == L[j].Addr(heap) + UNIT * (L[j].size - nu)
  {
    var t := Taken(L[j], nu);
    forall b | b in L ensures b.Addr(heap) != t.Addr(heap) {
      var i :| 0 <= i < |L| && L[i] == b;
      AddrOrder(b, t, heap);
      if i < j { Ordered(L, i, j); }
      if j < i { Ordered(L, j, i); }
    }
    forall i | -1 <= i < |Frees(L)| ensures At(Frees(L), i, base, heap) != t.Addr(heap) {
      if i >= 0 { FreesMembers(L, Frees(L)[i]); }
      AddrOrder(t, t, heap);
    }
  }

  lemma LiveAfterSplit(next: map<int, int>, size: map<int, int>, L: Layout, heap: int, j: nat, nu: nat, b: Block)
    requires Tiled(L) && LiveHeaders(next, size, L, heap)
    requires j < |L| && L[j].free && 1 <= nu && nu + 1 < L[j].size
    requires forall b :: b in L ==> b.Addr(heap) != Taken(L[j], nu).Addr(heap)
    requires b in Take(L, j, nu) && !b.free
    ensures var cur, cut := L[j].Addr(heap), Taken(L[j], nu).Addr(heap);
            LiveHeader(next[cut := cut], size[cur := L[j].size - nu][cut := nu], b.Addr(heap), b.size)
  {
    var cur, cut := L[j].Addr(heap), Taken(L[j], nu).Addr(heap);
    TakeLive(L, j, nu, b);
    if b != Taken(L[j], nu) {
      MemberApart(L, b, L[j], heap);
      LiveKept(next, size, L, b, heap);
    }
  }

  // The headers after an allocation from the m-th free block.
  function CarvedNext(next: map<int, int>, pre: int, cur: int, cut: int): map<int, int>
    requires cur in next
  {
    if cut == cur then next[pre := next[cur]][cur := cur] else next[cut := cut]
  }

  function CarvedSize(size: map<int, int>, cur: int, cut: int, nu: nat): map<int, int>
    requires cur in size
  {
    if cut == cur then size else size[cur := size[cur] - nu][cut := nu]
  }

  lemma CarveLinked(next: map<int, int>, size: map<int, int>, L: Layout, base: int, heap: int, j: nat, m: nat, nu: nat)
    requires Tiled(L) && Placed(base, heap) && Linked(next, size, Frees(L), base, heap)
    requires j < |L| && L[j].free && 1 <= nu <= L[j].size && m < |Frees(L)| && Frees(L)[m] == L[j]
    requires Frees(L[..j]) == Frees(L)[..m] && Frees(L[j + 1..]) == Frees(L)[m + 1..]
    ensures var F, b := Frees(L), Taken(L[j], nu);
            var pre, cur, cut := At(F, m - 1, base, heap), L[j].Addr(heap), b.Addr(heap);
            && cur in next && cur in size && size[cur] == L[j].size && pre in next
            && cut == (if L[j].size <= nu + 1 then cur else cur + UNIT * (L[j].size - nu))
            && Linked(CarvedNext(next, pre, cur, cut), CarvedSize(size, cur, cut, nu), Frees(Take(L, j, nu)), base,
               heap)
  {
    hide Take, Frees, Tiled;
    assert NodeOk(next, size, Frees(L), base, heap, m) && NodeOk(next, size, Frees(L), base, heap, m - 1);
    FreesSorted(L);
    TakeFrees(L, j, nu, m);
    if L[j].size <= nu + 1 {
      LinkedRemove(next, size, Frees(L), base, heap, m);
    } else {
      CutApart(L, j, nu, m, base, heap);
      LinkedShrink(next, size, Frees(L), base, heap, m, L[j].size - nu, Taken(L[j], nu).Addr(heap));
    }
  }

  lemma CarveLive(next: map<int, int>, size: map<int, int>, L: Layout, base: int, heap: int, j: nat, m: nat, nu: nat)
    requires Tiled(L) && Placed(base, heap) && LiveHeaders(next, size, L, heap)
    requires j < |L| && L[j].free && 1 <= nu <= L[j].size && m < |Frees(L)| && Frees(L)[m] == L[j]
    requires L[j].Addr(heap) in next && L[j].Addr(heap) in size && size[L[j].Addr(heap)] == L[j].size
    ensures var pre, cur, cut := At(Frees(L), m - 1, base, heap), L[j].Addr(heap), Taken(L[j], nu).Addr(heap);
            LiveHeaders(CarvedNext(next, pre, cur, cut), CarvedSize(size, cur, cut, nu), Take(L, j, nu), heap)
  {
    hide Take, Frees, Tiled, At;
    var pre, cur, cut := At(Frees(L), m - 1, base, heap), L[j].Addr(heap), Taken(L[j], nu).Addr(heap);
    if L[j].size > nu + 1 { CutApart(L, j, nu, m, base, heap); }
    forall b | b in Take(L, j, nu) && !b.free
      ensures LiveHeader(CarvedNext(next, pre, cur, cut), CarvedSize(size, cur, cut, nu), b.Addr(heap), b.size)
    {
      if L[j].size <= nu + 1 {
        LiveAfterWhole(next, size, L, heap, base, m, j, nu, b);
      } else {
        LiveAfterSplit(next, size, L, heap, j, nu, b);
      }
    }
  }

  lemma TakenFresh(L: Layout, j: nat, nu: nat, b: Block, heap: int)
    requires Tiled(L) && j < |L| && L[j].free && 1 <= nu <= L[j].size && b in L && !b.free
    ensures b.Addr(heap) != Taken(L[j], nu).Addr(heap)
  {
    var t := Taken(L[j], nu);
    var i :| 0 <= i < |L| && L[i] == b;
    AddrOrder(b, t, heap);
    if i < j { Ordered(L, i, j); }
    if j < i { Ordered(L, j, i); }
  }

  // live follows the layout when block t is handed out.
  lemma LiveTiedAdd(live: map<int, Block>, L: Layout, M: Layout, t: Block, heap: int)
    requires LiveTied(live, L, heap) && !t.free
    requires forall b: Block :: !b.free ==> (b in M <==> b in L || b == t)
    requires forall b :: b in L && !b.free ==> b.Addr(heap) != t.Addr(heap)
    ensures t.Addr(heap) + UNIT !in live
    ensures LiveTied(live[t.Addr(heap) + UNIT := t], M, heap)
  {
  }

  lemma LiveTiedTake(live: map<int, Block>, L: Layout, j: nat, nu: nat, heap: int)
    requires Tiled(L) && LiveTied(live, L, heap) && j < |L| && L[j].free && 1 <= nu <= L[j].size
    ensures var b := Taken(L[j], nu);
            && b.Addr(heap) + UNIT !in live
            && LiveTied(live[b.Addr(heap) + UNIT := b], Take(L, j, nu), heap)
  {
    hide Take, LiveTied, Tiled;
    var t, M := Taken(L[j], nu), Take(L, j, nu);
    forall b: Block | !b.free ensures b in M <==> b in L || b == t { TakeLive(L, j, nu, b); }
    forall b | b in L && !b.free ensures b.Addr(heap) != t.Addr(heap) { TakenFresh(L, j, nu, b, heap); }
    LiveTiedAdd(live, L, M, t, heap);
  }

  // ---- the search of free ----

  lemma PlaceOrder(L: Layout, base: int, heap: int, j: nat, m: int)
    requires Tiled(L) && Placed(base, heap) && j < |L| && !L[j].free && Sorted(Frees(L))
    requires -1 <= m < |Frees(L[..j])| <= |Frees(L)|
    ensures var cur, a, n := L[j].Addr(heap), At(Frees(L), m, base, heap), At(Frees(L), m + 1, base, heap);
            (cur > a && cur < n) || (a >= n && (cur > a || cur < n)) <==> m == |Frees(L[..j])| - 1
  {
    hide Frees, Tiled;
    InArenaAt(L, j);
    var F, f := Frees(L), |Frees(L[..j])|;
    MemberOutsideBase(L, L[j], base, heap);
    if m >= 0 {
      ListAround(L, j, m);
      AddrOrder(F[m], L[j], heap);
      AddrOrder(F[m], F[m], heap);
    }
    if m + 1 < |F| {
      ListAround(L, j, m + 1);
      FreesMembers(L, F[m + 1]);
      AddrOrder(F[m + 1], L[j], heap);
      AddrOrder(L[j], F[m + 1], heap);
      AddrOrder(F[m + 1], F[m + 1], heap);
      if m >= 0 { AtApart(F, base, heap, m, m + 1); }
    }
  }

  // ---- linking a released block ----

  predicate TouchesNext(F: Layout, f: nat, b: Block) { f < |F| && Touch(b, F[f]) }
  predicate TouchesPrev(F: Layout, f: nat, b: Block) { 0 < f <= |F| && Touch(F[f - 1], b) }

  // The tests free makes on addresses are the Touch relation.
  lemma SpliceFacts(next: map<int, int>, size: map<int, int>, L: Layout, base: int, heap: int, j: nat)
    requires Tiled(L) && Placed(base, heap) && Linked(next, size, Frees(L), base, heap)
    requires LiveHeaders(next, size, L, heap) && j < |L| && !L[j].free
    ensures var F, f, b := Frees(L), |Frees(L[..j])|, L[j].(free := true);
            var cur, fre, nx := b.Addr(heap), At(F, f - 1, base, heap), At(F, f, base, heap);
            && f <= |F| && Sorted(F) && Sorted(Insert(F, f, b))
            && fre in next && fre in size && next[fre] == nx && nx in next && nx in size
            && cur in size && size[cur] == b.size && fre != cur && nx != cur
            && (TouchesNext(F, f, b) ==> size[nx] == F[f].size)
            && (TouchesPrev(F, f, b) ==> size[fre] == F[f - 1].size)
            && (cur + UNIT * b.size == nx <==> TouchesNext(F, f, b))
            && (fre + UNIT * size[fre] == cur <==> TouchesPrev(F, f, b))
  {
    hide Frees, Tiled;
    var F, f, b := Frees(L), |Frees(L[..j])|, L[j].(free := true);
    InArenaAt(L, j);
    InsertSorted(L, j);
    InsertFrees(L, j);
    assert NodeOk(next, size, F, base, heap, f - 1);
    assert NodeOk(next, size, F, base, heap, if f < |F| then f else -1);
    assert LiveHeader(next, size, L[j].Addr(heap), L[j].size);
    LiveOffList(L, L[j], f - 1, base, heap);
    LiveOffList(L, L[j], f, base, heap);
    MemberOutsideBase(L, L[j], base, heap);
    if f < |F| { TouchByAddr(b, F[f], heap); }
    if f > 0 { TouchByAddr(F[f - 1], b, heap); }
  }

  // What free leaves in the Next and McbSize fields.
  function SplicedNext(next: map<int, int>, cur: int, fre: int, nx: int, tn: bool, tp: bool): map<int, int>
    requires fre in next && nx in next
  {
    var after := if tn then next[nx] else next[fre];
    next[cur := after][fre := if tp then after else cur]
  }

  function SplicedSize(size: map<int, int>, cur: int, fre: int, nx: int, tn: bool, tp: bool): map<int, int>
    requires fre in size && nx in size && cur in size
  {
    var n := if tn then size[cur] + size[nx] else size[cur];
    var grown := if tn then size[cur := n] else size;
    if tp then grown[fre := size[fre] + n] else grown
  }

  lemma SpliceLinked(next: map<int, int>, size: map<int, int>, L: Layout, base: int, heap: int, j: nat)
    requires Tiled(L) && Placed(base, heap) && Linked(next, size, Frees(L), base, heap)
    requires LiveHeaders(next, size, L, heap) && j < |L| && !L[j].free
    ensures var F, f, b := Frees(L), |Frees(L[..j])|, L[j].(free := true);
            var cur, fre, nx := b.Addr(heap), At(F, f - 1, base, heap), At(F, f, base, heap);
            var tn, tp := TouchesNext(F, f, b), TouchesPrev(F, f, b);
            && f <= |F| && fre in next && nx in next && fre in size && nx in size && cur in size
            && Linked(SplicedNext(next, cur, fre, nx, tn, tp), SplicedSize(size, cur, fre, nx, tn, tp),
                      FreeInto(F, f, b), base, heap)
  {
    var F, f, b := Frees(L), |Frees(L[..j])|, L[j].(free := true);
    SpliceFacts(next, size, L, base, heap, j);
    LinkedInsert(next, size, F, base, heap, f, b);
    var cur, fre, nx := b.Addr(heap), At(F, f - 1, base, heap), At(F, f, base, heap);
    SpliceInserted(next, size, F, base, heap, f, b);
  }

  lemma SpliceInserted(next: map<int, int>, size: map<int, int>, F: Layout, base: int, heap: int, f: nat, b: Block)
    requires Placed(base, heap) && f <= |F| && Sorted(F) && Sorted(Insert(F, f, b))
    requires var cur, fre, nx := b.Addr(heap), At(F, f - 1, base, heap), At(F, f, base, heap);
             && fre in next && nx in next && fre in size && nx in size && cur in size
             && fre != cur && nx != cur && size[cur] == b.size && next[fre] == nx
             && (TouchesNext(F, f, b) ==> size[nx] == F[f].size)
             && (TouchesPrev(F, f, b) ==> size[fre] == F[f - 1].size)
             && Linked(next[cur := next[fre]][fre := cur], size, Insert(F, f, b), base, heap)
    ensures var cur, fre, nx := b.Addr(heap), At(F, f - 1, base, heap), At(F, f, base, heap);
            var tn, tp := TouchesNext(F, f, b), TouchesPrev(F, f, b);
            Linked(SplicedNext(next, cur, fre, nx, tn, tp), SplicedSize(size, cur, fre, nx, tn, tp),
                   FreeInto(F, f, b), base, heap)
  {
    SpliceNextPhase(next, size, F, base, heap, f, b);
    if TouchesPrev(F, f, b) { SplicePrevPhase(next, size, F, base, heap, f, b); }
  }

  lemma SpliceNextPhase(next: map<int, int>, size: map<int, int>, F: Layout, base: int, heap: int, f: nat, b: Block)
    requires Placed(base, heap) && f <= |F| && Sorted(F) && Sorted(Insert(F, f, b))
    requires var cur, fre, nx := b.Addr(heap), At(F, f - 1, base, heap), At(F, f, base, heap);
             && fre in next && nx in next && fre in size && nx in size && cur in size
             && fre != cur && nx != cur && size[cur] == b.size && next[fre] == nx
             && (TouchesNext(F, f, b) ==> size[nx] == F[f].size)
             && Linked(next[cur := next[fre]][fre := cur], size, Insert(F, f, b), base, heap)
    ensures var cur, fre, nx := b.Addr(heap), At(F, f - 1, base, heap), At(F, f, base, heap);
            var tn := TouchesNext(F, f, b);
            && Sorted(FreeBefore(F, f, b))
            && Linked(SplicedNext(next, cur, fre, nx, tn, false), SplicedSize(size, cur, fre, nx, tn, false),
                      FreeBefore(F, f, b), base, heap)
  {
    var cur, fre, nx := b.Addr(heap), At(F, f - 1, base, heap), At(F, f, base, heap);
    var next1, G := next[cur := next[fre]][fre := cur], Insert(F, f, b);
    if TouchesNext(F, f, b) {
      assert At(G, f, base, heap) == cur && G[f + 1] == F[f] && At(G, f + 1, base, heap) == nx;
      AtApart(F, base, heap, f - 1, f);
      LinkedFuse(next1, size, G, base, heap, f);
      FuseSorted(G, f);
      assert next1[cur := next1[nx]] == SplicedNext(next, cur, fre, nx, true, false);
    }
  }

  lemma SplicePrevPhase(next: map<int, int>, size: map<int, int>, F: Layout, base: int, heap: int, f: nat, b: Block)
    requires Placed(base, heap) && f <= |F| && Sorted(FreeBefore(F, f, b)) && TouchesPrev(F, f, b)
    requires var cur, fre, nx := b.Addr(heap), At(F, f - 1, base, heap), At(F, f, base, heap);
             var tn := TouchesNext(F, f, b);
             && fre in next && nx in next && fre in size && nx in size && cur in size
             && fre != cur && nx != cur && size[cur] == b.size
             && (tn ==> size[nx] == F[f].size) && size[fre] == F[f - 1].size
             && Linked(SplicedNext(next, cur, fre, nx, tn, false), SplicedSize(size, cur, fre, nx, tn, false),
                       FreeBefore(F, f, b), base, heap)
    ensures var cur, fre, nx := b.Addr(heap), At(F, f - 1, base, heap), At(F, f, base, heap);
            var tn := TouchesNext(F, f, b);
            Linked(SplicedNext(next, cur, fre, nx, tn, true), SplicedSize(size, cur, fre, nx, tn, true),
                   FreeInto(F, f, b), base, heap)
  {
    hide Linked, Sorted;
    var cur, fre, nx := b.Addr(heap), At(F, f - 1, base, heap), At(F, f, base, heap);
    var tn, G := TouchesNext(F, f, b), FreeBefore(F, f, b);
    var next1, size1 := SplicedNext(next, cur, fre, nx, tn, false), SplicedSize(size, cur, fre, nx, tn, false);
    assert At(G, f - 1, base, heap) == fre && At(G, f, base, heap) == cur && G[f - 1] == F[f - 1];
    LinkedFuse(next1, size1, G, base, heap, f - 1);
    assert next1[fre := next1[cur]] == SplicedNext(next, cur, fre, nx, tn, true);
    assert size1[fre := G[f - 1].size + G[f].size] == SplicedSize(size, cur, fre, nx, tn, true);
  }

  lemma LiveAfterFreed(next: map<int, int>, size: map<int, int>, next': map<int, int>, size': map<int, int>, L: Layout,
                       j: nat, base: int, heap: int)
    requires Tiled(L) && Placed(base, heap) && LiveHeaders(next, size, L, heap) && j < |L| && !L[j].free
    requires var cur, fre := L[j].Addr(heap), At(Frees(L), |Frees(L[..j])| - 1, base, heap);
             && (forall a :: a in next && a !in {cur, fre} ==> a in next' && next'[a] == next[a])
             && (forall a :: a in size && a !in {cur, fre} ==> a in size' && size'[a] == size[a])
    ensures LiveHeaders(next', size', Freed(L, j), heap)
  {
    hide Freed, Frees, Tiled;
    var M, cur, fre := Freed(L, j), L[j].Addr(heap), At(Frees(L), |Frees(L[..j])| - 1, base, heap);
    forall b | b in M && !b.free ensures LiveHeader(next', size', b.Addr(heap), b.size) {
      LiveStays(L, j, base, heap, b);
      LiveKept(next, size, L, b, heap);
    }
  }

  lemma LiveStays(L: Layout, j: nat, base: int, heap: int, b: Block)
    requires Tiled(L) && Placed(base, heap) && j < |L| && !L[j].free
    requires b in Freed(L, j) && !b.free
    ensures b in L && b.Addr(heap) !in {L[j].Addr(heap), At(Frees(L), |Frees(L[..j])| - 1, base, heap)}
  {
    FreedLive(L, j, b);
    MemberApart(L, b, L[j], heap);
    LiveOffList(L, b, |Frees(L[..j])| - 1, base, heap);
  }

  // live follows the layout when block t is given back.
  lemma LiveTiedDrop(live: map<int, Block>, L: Layout, M: Layout, t: Block, heap: int)
    requires LiveTied(live, L, heap) && t in L && !t.free
    requires forall b: Block :: !b.free ==> (b in M <==> b in L && b != t)
    requires forall b :: b in L && b != t ==> b.Addr(heap) != t.Addr(heap)
    ensures LiveTied(live - {t.Addr(heap) + UNIT}, M, heap)
  {
  }

  lemma LiveTiedFreed(live: map<int, Block>, L: Layout, j: nat, heap: int)
    requires Tiled(L) && LiveTied(live, L, heap) && j < |L| && !L[j].free
    ensures LiveTied(live - {L[j].Addr(heap) + UNIT}, Freed(L, j), heap)
  {
    hide Freed, LiveTied, Tiled;
    var t, M := L[j], Freed(L, j);
    forall b: Block | !b.free ensures b in M <==> b in L && b != t { FreedLive(L, j, b); }
    forall b | b in L && b != t ensures b.Addr(heap) != t.Addr(heap) { MemberApart(L, b, t, heap); }
    LiveTiedDrop(live, L, M, t, heap);
  }

  // The blocks handed out determine the whole layout, and with it the free list.
  lemma LayoutByLive(live: map<int, Block>, A: Layout, B: Layout, heap: int)
    requires Tiled(A) && Coalesced(A) && LiveTied(live, A, heap)
    requires Tiled(B) && Coalesced(B) && LiveTied(live, B, heap)
    ensures A == B
  {
    hide Tiled, Coalesced;
    forall b: Block | !b.free ensures b in A <==> b in B {
      if b in A { assert live[b.Addr(heap) + UNIT] == b; }
      if b in B { assert live[b.Addr(heap) + UNIT] == b; }
    }
    LiveDeterminesLayout(A, B);
  }

  class Allocator {
    const base: int               // address of Base
    const heap: int               // address of _FarHeap[0]
    var next: map<int, int>       // s.Next, by header address
    var size: map<int, int>       // s.McbSize, by header address
    var availmem: int             // Availmem
    var miniAvailmem: int         // mini_Availmem
    var allocp: int               // Allocp: NULL until the first malloc, then Base
    ghost var layout: Layout      // the arenas as blocks
    ghost var live: map<int, Block>
    ghost var refusals: nat       // requests that were turned down

    ghost predicate Valid()
      reads this
    {
      && Placed(base, heap)
      && Tiled(layout) && Coalesced(layout)
      && LiveTied(live, layout, heap)
      && (allocp == 0 ==> availmem == 0 && layout == Initial())
      && (allocp != 0 ==>
            && allocp == base
            && availmem == FreeUnits(layout) && miniAvailmem <= availmem
            && Linked(next, size, Frees(layout), base, heap)
            && LiveHeaders(next, size, layout, heap))
    }

    constructor (base: int, heap: int)
      requires Placed(base, heap)
      ensures Valid() && this.base == base && this.heap == heap && live == map[] && layout == Initial() && refusals == 0
    {
      this.base, this.heap := base, heap;
      next, size, availmem, miniAvailmem, allocp := map[], map[], 0, 0, 0;
      layout, live, refusals := Initial(), map[], 0;
      InitialTiled();
    }

    // mallocinit: one block per arena, linked in a ring through Base.
    method MallocInit()
      requires Valid() && allocp == 0
      modifies this
      ensures Valid() && allocp == base && layout == Initial() && live == old(live) && refusals == old(refusals)
      ensures availmem == miniAvailmem == ARENAS * ARENA_UNITS
    {
      hide Frees, Tiled, Coalesced, FreeUnits;
      size := size[base := 1];
      allocp := base;
      var cur := base;
      ghost var F := Initial();
      for i := 0 to ARENAS
        invariant cur == At(F, i - 1, base, heap) && availmem == i * ARENA_UNITS
        invariant cur in size && size[cur] == if i == 0 then 1 else ARENA_UNITS
        invariant forall m :: -1 <= m < i - 1 ==> NodeOk(next, size, F, base, heap, m)
        invariant allocp == base && live == old(live) && layout == F && refusals == old(refusals)
      {
        InitialApart(base, heap, i);
        ghost var next0, size0 := next, size;
        var nx := heap + STRIDE * i;
        next := next[cur := nx];
        size := size[nx := ARENA_UNITS];
        forall m | -1 <= m < i ensures NodeOk(next, size, F, base, heap, m) {
          assert m < i - 1 ==> NodeOk(next0, size0, F, base, heap, m);
        }
        cur := nx;
        availmem := availmem + ARENA_UNITS;
      }
      InitialApart(base, heap, ARENAS);
      ghost var next0 := next;
      next := next[cur := base];
      forall m | -1 <= m < ARENAS ensures NodeOk(next, size, F, base, heap, m) {
        assert m < ARENAS - 1 ==> NodeOk(next0, size, F, base, heap, m);
      }
      miniAvailmem := availmem;
      InitialFrees();
      InitialTiled();
    }

    // Allocate nb bytes: first fit, the tail of the block when two or more units would be left.
    method Malloc(nb: nat) returns (p: int)
      requires Valid() && nb + UNIT <= 0x1_0000_0000
      modifies this
      ensures Valid()
      ensures p == 0 <==> nb == 0 || forall i :: 0 <= i < |old(layout)| ==> !Roomy(old(layout)[i], nb)
      ensures p == 0 ==> layout == old(layout) && live == old(live)
      ensures refusals == old(refusals) + if p == 0 && nb > 0 then 1 else 0
      ensures nb > 0 ==> layout == Step(old(layout), Op.Malloc(Units(nb)))
      ensures p != 0 ==>
                var j := FirstFit(old(layout), Units(nb), 0);
                && j < |old(layout)|
                && var b := Taken(old(layout)[j], Units(nb));
                && Served(old(layout), layout, j, b, nb)
                && p == b.Addr(heap) + UNIT && p !in old(live) && live == old(live)[p := b]
    {
      hide Tiled, Coalesced, FreeUnits, Frees, LiveHeaders, LiveTied, Linked, Take;
      if nb == 0 { return 0; }
      FitServes(layout, nb);
      var nu := Units(nb);
      if allocp == 0 { MallocInit(); }
      ghost var F, m := Frees(layout), 0;
      NodeAt(next, size, F, base, heap, -1);
      var pre := allocp;
      var cur := next[pre];
      while true
        invariant Valid() && allocp == base && layout == old(layout) && live == old(live) && refusals == old(refusals)
        invariant 0 <= m <= |F| && F == Frees(layout)
        invariant pre == At(F, m - 1, base, heap) && cur == At(F, m, base, heap)
        invariant forall i :: 0 <= i < m ==> F[i].size < nu
        decreases |F| - m
      {
        NodeAt(next, size, F, base, heap, if m < |F| then m else -1);
        if size[cur] >= nu {
          p := Carve(pre, cur, nu, m);
          return;
        }
        if cur == allocp {
          FreesSorted(layout);
          if m < |F| { AtApart(F, base, heap, -1, m); }
          NoFit(layout, nu);
          refusals := refusals + 1;
          return 0;
        }
        pre, cur, m := cur, next[cur], m + 1;
      }
    }

    // The body of the search loop once a large enough block is found.
    method Carve(pre: int, cur0: int, nu: nat, ghost m: nat) returns (p: int)
      requires Valid() && allocp == base && nu >= 2
      requires m < |Frees(layout)| && Frees(layout)[m].size >= nu
      requires forall i :: 0 <= i < m ==> Frees(layout)[i].size < nu
      requires pre == At(Frees(layout), m - 1, base, heap) && cur0 == At(Frees(layout), m, base, heap)
      modifies this
      ensures Valid()
      ensures var j := FirstFit(old(layout), nu, 0);
              && j < |old(layout)|
              && var b := Taken(old(layout)[j], nu);
              && layout == Take(old(layout), j, nu)
              && p == b.Addr(heap) + UNIT && p > 0
              && p !in old(live) && live == old(live)[p := b]
      ensures refusals == old(refusals)
    {
      hide Take, Frees, Linked, LiveHeaders, LiveTied, Tiled, Coalesced, FreeUnits, FirstFit, Initial;
      ghost var L := layout;
      ghost var j := FitAt(L, nu, m);
      ghost var b := Taken(L[j], nu);
      CarveLinked(next, size, L, base, heap, j, m, nu);
      CarveLive(next, size, L, base, heap, j, m, nu);
      TakeKeeps(L, j, nu);
      LiveTiedTake(live, L, j, nu, heap);
      MemberOutsideBase(L, L[j], base, heap);
      var cur := cur0;
      if size[cur] <= nu + 1 {
        next := next[pre := next[cur]];
      } else {
        size := size[cur := size[cur] - nu];
        cur := cur + UNIT * size[cur];
        size := size[cur := nu];
      }
      next := next[cur := cur];
      availmem := availmem - size[cur];
      if availmem < miniAvailmem { miniAvailmem := availmem; }
      layout := Take(L, j, nu);
      p := cur + UNIT;
      live := live[p := b];
    }

    // A live block's header passes the audit check of free.
    lemma LiveHasHeader(p: int)
      requires Valid() && p in live
      ensures p > UNIT && p - UNIT in next && next[p - UNIT] == p - UNIT
    {
      InitialTiled();
      assert LiveHeader(next, size, live[p].Addr(heap), live[p].size);
      MemberOutsideBase(layout, live[p], base, heap);
    }

    // Put a block back.  A header that does not point to itself is left alone.
    method Free(block: int)
      requires Valid()
      requires block != 0 ==> block - UNIT in next
      requires block != 0 && next[block - UNIT] == block - UNIT ==> block in live
      modifies this
      ensures Valid()
      ensures refusals == old(refusals)
      ensures block == 0 || old(block !in live) ==> layout == old(layout) && live == old(live)
      ensures block != 0 && old(block in live) ==>
                && live == old(live) - {block}
                && layout == Step(old(layout), Op.Free(old(live)[block].Pos()))
    {
      hide Frees, Freed, Linked, Tiled, Coalesced, FreeUnits;
      if block == 0 { return; }
      var cur := block - UNIT;
      assert block in live ==> LiveHeader(next, size, cur, live[block].size);
      if next[cur] != cur { return; }
      assert LiveHeader(next, size, cur, live[block].size);
      ghost var j :| 0 <= j < |layout| && layout[j] == live[block];
      availmem := availmem + size[cur];
      var fre := FindPlace(cur, j);
      StepOfFree(layout, j);
      Splice(cur, fre, j);
    }

    // The search loop of free: the last free block below cur, or Base.
    method FindPlace(cur: int, ghost j: nat) returns (fre: int)
      requires Placed(base, heap) && Tiled(layout) && allocp == base
      requires Linked(next, size, Frees(layout), base, heap)
      requires j < |layout| && !layout[j].free && cur == layout[j].Addr(heap)
      ensures fre == At(Frees(layout), |Frees(layout[..j])| - 1, base, heap)
    {
      ghost var F, f, m := Frees(layout), |Frees(layout[..j])|, -1;
      InsertFrees(layout, j);
      FreesSorted(layout);
      MemberOutsideBase(layout, layout[j], base, heap);
      fre := allocp;
      assert NodeOk(next, size, F, base, heap, m);
      while !(cur > fre && cur < next[fre])
        invariant -1 <= m < f && fre == At(F, m, base, heap) && fre in next
        invariant next[fre] == At(F, m + 1, base, heap)
        decreases f - m
      {
        PlaceOrder(layout, base, heap, j, m);
        if fre >= next[fre] && (cur > fre || cur < next[fre]) { break; }
        fre, m := next[fre], m + 1;
        assert NodeOk(next, size, F, base, heap, m);
      }
      PlaceOrder(layout, base, heap, j, m);
    }

    // Link cur after fre, joining it with its neighbours where they touch.
    method Splice(cur: int, fre: int, ghost j: nat)
      requires Placed(base, heap) && Tiled(layout) && Coalesced(layout) && allocp == base
      requires LiveTied(live, layout, heap)
      requires Linked(next, size, Frees(layout), base, heap) && LiveHeaders(next, size, layout, heap)
      requires j < |layout| && !layout[j].free && cur == layout[j].Addr(heap)
      requires availmem == FreeUnits(layout) + layout[j].size && miniAvailmem <= availmem
      requires fre == At(Frees(layout), |Frees(layout[..j])| - 1, base, heap)
      modifies this
      ensures Valid() && layout == Freed(old(layout), j) && live == old(live) - {cur + UNIT}
              && refusals == old(refusals)
    {
      hide Freed, FreeInto, Frees, Linked, LiveTied, Tiled, Coalesced, FreeUnits, At, TouchesNext, TouchesPrev;
      ghost var L, F, f, b := layout, Frees(layout), |Frees(layout[..j])|, layout[j].(free := true);
      ghost var next0, size0 := next, size;
      assert LiveHeader(next, size, cur, L[j].size);
      SpliceFacts(next, size, L, base, heap, j);
      SpliceLinked(next, size, L, base, heap, j);
      var nx := next[fre];
      if cur + UNIT * size[cur] == nx {
        size := size[cur := size[cur] + size[nx]];
        next := next[cur := next[nx]];
      } else {
        next := next[cur := next[fre]];
      }
      if fre + UNIT * size[fre] == cur {
        size := size[fre := size[fre] + size[cur]];
        next := next[fre := next[cur]];
      } else {
        next := next[fre := cur];
      }
      assert next == SplicedNext(next0, cur, fre, nx, TouchesNext(F, f, b), TouchesPrev(F, f, b));
      assert size == SplicedSize(size0, cur, fre, nx, TouchesNext(F, f, b), TouchesPrev(F, f, b));
      LiveAfterFreed(next0, size0, next, size, L, j, base, heap);
      FreedKeeps(L, j);
      FreedFrees(L, j);
      LiveTiedFreed(live, L, j, heap);
      layout, live := Freed(L, j), live - {cur + UNIT};
    }
  }
}
