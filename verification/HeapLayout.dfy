// What the arenas of loader/src/alloc.c look like as values: a sequence of free
// and live blocks in address order, and what malloc and free do to it.
module HeapLayout {

  const ARENAS := 8          // MEM_BLOCKS
  const ARENA_UNITS := 682   // (BLOCK2_SIZE - 1) / MCBSIZE
  const STRIDE := 8192       // BLOCK2_SIZE: eight bytes are left over between arenas
  const UNIT := 12           // MCBSIZE
  const TOTAL := ARENAS * ARENA_UNITS

  // A block of size units (its header included) at unit off of an arena.
  datatype Block = Block(arena: nat, off: nat, size: nat, free: bool) {
    function Pos(): nat { ARENA_UNITS * arena + off }
    function End(): nat { Pos() + size }
    // Byte address of the header, when the arenas start at heap.
    function Addr(heap: int): int { heap + STRIDE * arena + UNIT * off }
  }

  type Layout = seq<Block>

  predicate InArena(b: Block)
  {
    b.arena < ARENAS && b.size >= 1 && b.off + b.size <= ARENA_UNITS
  }

  // The blocks tile the eight arenas: each starts where the previous one ends.
  ghost predicate Tiled(L: Layout)
  {
    && L != []
    && (forall j :: 0 <= j < |L| ==> InArena(L[j]))
    && L[0].Pos() == 0
    && (forall i, j :: 0 <= i && j == i + 1 && j < |L| ==> L[j].Pos() == L[i].End())
    && L[|L| - 1].End() == TOTAL
  }

  predicate Touch(a: Block, b: Block)
  {
    a.arena == b.arena && a.off + a.size == b.off
  }

  // No two free blocks touch.
  ghost predicate Coalesced(L: Layout)
  {
    forall i, j :: 0 <= i && j == i + 1 && j < |L| && L[i].free && L[j].free ==> !Touch(L[i], L[j])
  }

  function FreeUnits(L: Layout): nat
  {
    if L == [] then 0 else (if L[0].free then L[0].size else 0) + FreeUnits(L[1..])
  }

  function LiveUnits(L: Layout): nat
  {
    if L == [] then 0 else (if L[0].free then 0 else L[0].size) + LiveUnits(L[1..])
  }

  function Initial(): Layout
  {
    seq(ARENAS, i requires 0 <= i => Block(i, 0, ARENA_UNITS, true))
  }

  // Index of the first free block at or after i with at least nu units, or |L|.
  function FirstFit(L: Layout, nu: nat, i: nat): (j: nat)
    requires i <= |L|
    ensures i <= j <= |L|
    ensures j < |L| ==> L[j].free && L[j].size >= nu
    ensures forall m :: i <= m < j ==> !(L[m].free && L[m].size >= nu)
    decreases |L| - i
  {
    if i == |L| || (L[i].free && L[i].size >= nu) then i else FirstFit(L, nu, i + 1)
  }

  // The block that an allocation of nu units gets from block j.
  function Taken(b: Block, nu: nat): Block
    requires nu <= b.size
  {
    if b.size <= nu + 1 then b.(free := false)
    else Block(b.arena, b.off + b.size - nu, nu, false)
  }

  function Take(L: Layout, j: nat, nu: nat): Layout
    requires j < |L| && nu <= L[j].size
  {
    if L[j].size <= nu + 1 then L[j := Taken(L[j], nu)]
    else L[..j] + [L[j].(size := L[j].size - nu), Taken(L[j], nu)] + L[j + 1..]
  }

  predicate CanMerge(L: Layout, j: int)
  {
    0 <= j && j + 1 < |L| && L[j].free && L[j + 1].free && Touch(L[j], L[j + 1])
  }

  // Join block j with the next one when both are free and touch.
  function Merge(L: Layout, j: int): Layout
  {
    if CanMerge(L, j)
    then L[..j] + [L[j].(size := L[j].size + L[j + 1].size)] + L[j + 2..]
    else L
  }

  function Freed(L: Layout, j: nat): Layout
    requires j < |L|
  {
    Merge(Merge(L[j := L[j].(free := true)], j), j - 1)
  }

  // ---- order ----

  lemma {:induction false} Ordered(L: Layout, i: nat, j: nat)
    requires Tiled(L) && i < j < |L|
    ensures L[i].End() <= L[j].Pos() && L[i].Pos() < L[j].Pos()
    decreases j
  {
    assert L[j].Pos() == L[j - 1].End();
    if i < j - 1 { Ordered(L, i, j - 1); }
  }

  lemma SamePosSameIndex(L: Layout, i: nat, j: nat)
    requires Tiled(L) && i < |L| && j < |L| && L[i].Pos() == L[j].Pos()
    ensures i == j
  {
    if i < j { Ordered(L, i, j); }
    if j < i { Ordered(L, j, i); }
  }

  lemma AddrOrder(a: Block, b: Block, heap: int)
    requires InArena(a) && InArena(b)
    ensures a.Pos() < b.Pos() <==> a.Addr(heap) < b.Addr(heap)
    ensures a.Pos() == b.Pos() <==> a.Addr(heap) == b.Addr(heap)
    ensures a.Pos() == b.Pos() ==> a.arena == b.arena && a.off == b.off
    ensures heap <= a.Addr(heap) && a.Addr(heap) + UNIT * a.size <= heap + STRIDE * ARENAS - 8
  {
  }

  // Only blocks of one arena can be adjacent in memory.
  lemma TouchByAddr(a: Block, b: Block, heap: int)
    requires InArena(a) && InArena(b)
    ensures a.Addr(heap) + UNIT * a.size == b.Addr(heap) <==> Touch(a, b)
  {
  }

  lemma TouchAdjacent(L: Layout, i: nat, j: nat)
    requires Tiled(L) && i < |L| && j < |L| && Touch(L[i], L[j])
    ensures j == i + 1
  {
    if j < i { Ordered(L, j, i); }
    if i + 1 < j { Ordered(L, i + 1, j); Ordered(L, i, i + 1); }
  }

  // ---- conservation ----

  lemma {:induction false} UnitsFrom(L: Layout, j: nat)
    requires Tiled(L) && j < |L|
    ensures FreeUnits(L[j..]) + LiveUnits(L[j..]) == TOTAL - L[j].Pos()
    decreases |L| - j
  {
    assert L[j..][1..] == L[j + 1..];
    if j + 1 < |L| {
      UnitsFrom(L, j + 1);
      assert L[j + 1].Pos() == L[j].End();
    }
  }

  // Free and live units always add up to the eight arenas.
  lemma Conservation(L: Layout)
    requires Tiled(L)
    ensures FreeUnits(L) + LiveUnits(L) == ARENAS * ARENA_UNITS
  {
    UnitsFrom(L, 0);
    assert L[0..] == L;
  }

  lemma {:induction false} FreeUnitsAppend(a: Layout, b: Layout)
    ensures FreeUnits(a + b) == FreeUnits(a) + FreeUnits(b)
  {
    if a == [] {
      assert a + b == b;
    } else {
      FreeUnitsAppend(a[1..], b);
      assert (a + b)[1..] == a[1..] + b;
    }
  }

  // Replacing the blocks i..j changes the free units by their difference.
  lemma FreeUnitsReplace(L: Layout, i: nat, j: nat, m: Layout)
    requires i <= j <= |L|
    ensures FreeUnits(L[..i] + m + L[j..]) == FreeUnits(L) - FreeUnits(L[i..j]) + FreeUnits(m)
  {
    assert L == L[..i] + L[i..j] + L[j..];
    FreeUnitsAppend(L[..i] + L[i..j], L[j..]);
    FreeUnitsAppend(L[..i], L[i..j]);
    FreeUnitsAppend(L[..i] + m, L[j..]);
    FreeUnitsAppend(L[..i], m);
  }

  lemma FreeUnitsOne(b: Block)
    ensures FreeUnits([b]) == if b.free then b.size else 0
  {
    assert [b][1..] == [];
  }

  // ---- what the operations keep ----

  lemma InArenaAt(L: Layout, j: nat)
    requires Tiled(L) && j < |L|
    ensures InArena(L[j])
  {
  }

  function Replace(L: Layout, i: nat, j: nat, m: Layout): Layout
    requires i <= j <= |L|
  {
    L[..i] + m + L[j..]
  }

  lemma ReplaceAt(L: Layout, i: nat, j: nat, m: Layout, p: nat)
    requires i <= j <= |L| && p < |Replace(L, i, j, m)|
    ensures Replace(L, i, j, m)[p] ==
            if p < i then L[p] else if p < i + |m| then m[p - i] else L[p - i - |m| + j]
  {
  }

  ghost predicate Chained(m: Layout)
  {
    && (forall p :: 0 <= p < |m| ==> InArena(m[p]))
    && (forall p, q :: 0 <= p && q == p + 1 && q < |m| ==> m[q].Pos() == m[p].End())
  }

  // Blocks covering the same span can stand in for blocks i..j.
  lemma ReplaceTiled(L: Layout, i: nat, j: nat, m: Layout)
    requires Tiled(L) && i < j <= |L| && m != [] && Chained(m)
    requires m[0].Pos() == L[i].Pos() && m[|m| - 1].End() == L[j - 1].End()
    ensures Tiled(Replace(L, i, j, m))
  {
    var N := Replace(L, i, j, m);
    forall p | 0 <= p < |N| ensures InArena(N[p]) { ReplaceAt(L, i, j, m, p); }
    forall p, q | 0 <= p && q == p + 1 && q < |N| ensures N[q].Pos() == N[p].End() {
      ReplaceAt(L, i, j, m, p);
      ReplaceAt(L, i, j, m, q);
    }
    ReplaceAt(L, i, j, m, 0);
    ReplaceAt(L, i, j, m, |N| - 1);
  }

  lemma ReplaceCoalesced(L: Layout, i: nat, j: nat, m: Layout)
    requires Coalesced(L) && i < j <= |L| && m != [] && Coalesced(m)
    requires i > 0 && L[i - 1].free && m[0].free ==> !Touch(L[i - 1], m[0])
    requires j < |L| && m[|m| - 1].free && L[j].free ==> !Touch(m[|m| - 1], L[j])
    ensures Coalesced(Replace(L, i, j, m))
  {
    var N := Replace(L, i, j, m);
    forall p, q | 0 <= p && q == p + 1 && q < |N| && N[p].free && N[q].free ensures !Touch(N[p], N[q]) {
      ReplaceAt(L, i, j, m, p);
      ReplaceAt(L, i, j, m, q);
    }
  }

  // What an allocation puts in place of the block it takes from.
  function TakeParts(b: Block, nu: nat): Layout
    requires nu <= b.size
  {
    if b.size <= nu + 1 then [Taken(b, nu)] else [b.(size := b.size - nu), Taken(b, nu)]
  }

  lemma TakeIsReplace(L: Layout, j: nat, nu: nat)
    requires j < |L| && nu <= L[j].size
    ensures Take(L, j, nu) == Replace(L, j, j + 1, TakeParts(L[j], nu))
  {
  }

  lemma TakeKeeps(L: Layout, j: nat, nu: nat)
    requires Tiled(L) && Coalesced(L) && j < |L| && L[j].free && 1 <= nu <= L[j].size
    ensures Tiled(Take(L, j, nu)) && Coalesced(Take(L, j, nu))
    ensures FreeUnits(Take(L, j, nu)) == FreeUnits(L) - Taken(L[j], nu).size
  {
    hide Take, TakeParts, Tiled, Coalesced;
    InArenaAt(L, j);
    TakeIsReplace(L, j, nu);
    TakePartsUnits(L[j], nu);
    var m := TakeParts(L[j], nu);
    ReplaceTiled(L, j, j + 1, m);
    TakeCoalesced(L, j, m);
    FreeUnitsReplace(L, j, j + 1, m);
    assert L[j..j + 1] == [L[j]];
    FreeUnitsOne(L[j]);
  }

  lemma TakeCoalesced(L: Layout, j: nat, m: Layout)
    requires Coalesced(L) && j < |L| && L[j].free && m != [] && Coalesced(m) && !m[|m| - 1].free
    requires m[0].arena == L[j].arena && m[0].off == L[j].off
    ensures Coalesced(Replace(L, j, j + 1, m))
  {
    ReplaceCoalesced(L, j, j + 1, m);
  }

  lemma TakePartsUnits(b: Block, nu: nat)
    requires InArena(b) && b.free && 1 <= nu <= b.size
    ensures var m := TakeParts(b, nu);
            && m != [] && Chained(m) && Coalesced(m) && !m[|m| - 1].free
            && m[0].Pos() == b.Pos() && m[0].arena == b.arena && m[0].off == b.off
            && m[|m| - 1].End() == b.End()
            && FreeUnits(m) == b.size - Taken(b, nu).size
  {
    var m := TakeParts(b, nu);
    FreeUnitsOne(Taken(b, nu));
    if |m| == 2 {
      assert m[1..] == [Taken(b, nu)];
    }
  }

  function Joined(a: Block, b: Block): Block
  {
    a.(size := a.size + b.size)
  }

  lemma MergeIsReplace(L: Layout, j: nat)
    requires Tiled(L) && CanMerge(L, j)
    ensures Merge(L, j) == Replace(L, j, j + 2, [Joined(L[j], L[j + 1])])
    ensures Chained([Joined(L[j], L[j + 1])])
    ensures Joined(L[j], L[j + 1]).End() == L[j + 1].End()
  {
    var m := [Joined(L[j], L[j + 1])];
    assert m[0].Pos() == L[j].Pos();
  }

  lemma MergeKeeps(L: Layout, j: int)
    requires Tiled(L)
    ensures Tiled(Merge(L, j)) && FreeUnits(Merge(L, j)) == FreeUnits(L)
  {
    hide Tiled, FreeUnits;
    if CanMerge(L, j) {
      var a, b := L[j], L[j + 1];
      var m := [Joined(a, b)];
      MergeIsReplace(L, j);
      ReplaceTiled(L, j, j + 2, m);
      FreeUnitsReplace(L, j, j + 2, m);
      assert L[j..j + 2] == [a] + [b];
      FreeUnitsAppend([a], [b]);
      FreeUnitsOne(a);
      FreeUnitsOne(b);
      FreeUnitsOne(m[0]);
    }
  }

  // Coalesced except that block j may touch its neighbours.
  ghost predicate CoalescedBut(L: Layout, j: int)
  {
    forall p, q :: 0 <= p && q == p + 1 && q < |L| && p != j && q != j && L[p].free && L[q].free
                   ==> !Touch(L[p], L[q])
  }

  lemma MergeAfter(A: Layout, j: nat)
    requires Tiled(A) && j < |A| && A[j].free && CoalescedBut(A, j)
    ensures var B := Merge(A, j);
            && j < |B| && B[j].free && CoalescedBut(B, j)
            && (forall p :: 0 <= p < j ==> B[p] == A[p])
            && B[j].Pos() == A[j].Pos() && B[j].arena == A[j].arena
            && (j + 1 < |B| && B[j + 1].free ==> !Touch(B[j], B[j + 1]))
  {
    hide Tiled;
    if CanMerge(A, j) {
      var m := [Joined(A[j], A[j + 1])];
      MergeIsReplace(A, j);
      var B := Merge(A, j);
      forall p | 0 <= p < |B| ensures B[p] == if p < j then A[p] else if p == j then m[0] else A[p + 1] {
        ReplaceAt(A, j, j + 2, m, p);
      }
    }
  }

  lemma MergeBefore(B: Layout, j: nat)
    requires Tiled(B) && j < |B| && B[j].free && CoalescedBut(B, j)
    requires j + 1 < |B| && B[j + 1].free ==> !Touch(B[j], B[j + 1])
    ensures Coalesced(Merge(B, j - 1))
  {
    hide Tiled, CoalescedBut, Coalesced, Touch;
    if CanMerge(B, j - 1) {
      var C := Merge(B, j - 1);
      MergeIsReplace(B, j - 1);
      forall p | 0 <= p < |C| ensures C[p] == AfterMerge(B, j, p) {
        ReplaceAt(B, j - 1, j + 1, [Joined(B[j - 1], B[j])], p);
      }
      JoinedApart(B, C, j);
    } else {
      StillCoalesced(B, j);
    }
  }

  // Block p once blocks j - 1 and j have become one.
  function AfterMerge(B: Layout, j: nat, p: nat): Block
    requires 1 <= j < |B| && p + 1 < |B|
  {
    if p < j - 1 then B[p] else if p == j - 1 then Joined(B[j - 1], B[j]) else B[p + 1]
  }

  // A block joined with the one before it touches what the two touched on the outside.
  lemma JoinedApart(B: Layout, C: Layout, j: nat)
    requires 1 <= j < |B| && B[j].free && CoalescedBut(B, j) && CanMerge(B, j - 1)
    requires j + 1 < |B| && B[j + 1].free ==> !Touch(B[j], B[j + 1])
    requires |C| == |B| - 1 && forall p :: 0 <= p < |C| ==> C[p] == AfterMerge(B, j, p)
    ensures Coalesced(C)
  {
    forall p, q | 0 <= p && q == p + 1 && q < |C| && C[p].free && C[q].free ensures !Touch(C[p], C[q]) {
      assert C[p] == AfterMerge(B, j, p) && C[q] == AfterMerge(B, j, q);
    }
  }

  lemma StillCoalesced(B: Layout, j: nat)
    requires j < |B| && CoalescedBut(B, j) && B[j].free && !CanMerge(B, j - 1)
    requires j + 1 < |B| && B[j + 1].free ==> !Touch(B[j], B[j + 1])
    ensures Merge(B, j - 1) == B && Coalesced(B)
  {
  }

  lemma FreedKeeps(L: Layout, j: nat)
    requires Tiled(L) && Coalesced(L) && j < |L| && !L[j].free
    ensures Tiled(Freed(L, j)) && Coalesced(Freed(L, j))
    ensures FreeUnits(Freed(L, j)) == FreeUnits(L) + L[j].size
  {
    hide Tiled, FreeUnits, Merge;
    var m := [L[j].(free := true)];
    var A := L[j := m[0]];
    assert A == Replace(L, j, j + 1, m);
    InArenaAt(L, j);
    ReplaceTiled(L, j, j + 1, m);
    FreeUnitsReplace(L, j, j + 1, m);
    assert L[j..j + 1] == [L[j]];
    FreeUnitsOne(L[j]);
    FreeUnitsOne(m[0]);
    MergeKeeps(A, j);
    MergeAfter(A, j);
    MergeKeeps(Merge(A, j), j - 1);
    MergeBefore(Merge(A, j), j);
  }

  // ---- the live blocks determine the layout ----

  ghost predicate SameLive(A: Layout, B: Layout)
  {
    forall b: Block :: !b.free ==> (b in A <==> b in B)
  }

  lemma SameBlock(A: Layout, B: Layout, i: nat)
    requires Tiled(A) && Coalesced(A) && Tiled(B) && Coalesced(B) && SameLive(A, B)
    requires i < |A| && i < |B| && A[i].Pos() == B[i].Pos()
    ensures A[i] == B[i]
  {
    AddrOrder(A[i], B[i], 0);
    if !A[i].free {
      assert A[i] in B;
      var m :| 0 <= m < |B| && B[m] == A[i];
      SamePosSameIndex(B, m, i);
    } else if !B[i].free {
      assert B[i] in A;
      var m :| 0 <= m < |A| && A[m] == B[i];
      SamePosSameIndex(A, m, i);
    } else {
      if A[i].size < B[i].size { NotShorter(A, B, i); }
      if B[i].size < A[i].size { NotShorter(B, A, i); }
    }
  }

  lemma NotShorter(A: Layout, B: Layout, i: nat)
    requires Tiled(A) && Coalesced(A) && Tiled(B) && SameLive(A, B)
    requires i < |A| && i < |B| && A[i].Pos() == B[i].Pos() && A[i].free && B[i].free
    requires A[i].arena == B[i].arena && A[i].off == B[i].off
    ensures A[i].size >= B[i].size
  {
    if A[i].size < B[i].size {
      assert A[i].End() < TOTAL;
      assert i + 1 < |A|;
      var b := A[i + 1];
      assert b.Pos() == A[i].End();
      assert Touch(A[i], b);
      assert b in A && !b.free;
      var m :| 0 <= m < |B| && B[m] == b;
      if m < i { Ordered(B, m, i); }
      if i < m { Ordered(B, i, m); }
      assert false;
    }
  }

  lemma NextPos(L: Layout, j: nat)
    requires Tiled(L) && j < |L|
    ensures L[j].Pos() == if j == 0 then 0 else L[j - 1].End()
  {
  }

  lemma {:induction false} SamePrefix(A: Layout, B: Layout, n: nat)
    requires Tiled(A) && Coalesced(A) && Tiled(B) && Coalesced(B) && SameLive(A, B)
    requires n <= |A| && n <= |B|
    ensures forall i :: 0 <= i < n ==> A[i] == B[i]
  {
    hide Tiled, Coalesced, SameLive;
    if n > 0 {
      SamePrefix(A, B, n - 1);
      NextPos(A, n - 1);
      NextPos(B, n - 1);
      SameBlock(A, B, n - 1);
    }
  }

  // Two coalesced tilings with the same live blocks are the same: the free list
  // does not remember in which order blocks were given back.
  lemma LiveDeterminesLayout(A: Layout, B: Layout)
    requires Tiled(A) && Coalesced(A) && Tiled(B) && Coalesced(B) && SameLive(A, B)
    ensures A == B
  {
    hide Coalesced, SameLive;
    SamePrefix(A, B, if |A| <= |B| then |A| else |B|);
    if |A| < |B| { LongerImpossible(A, B); }
    if |B| < |A| { LongerImpossible(B, A); }
  }

  lemma LongerImpossible(A: Layout, B: Layout)
    requires Tiled(A) && Tiled(B) && |A| < |B|
    ensures A[|A| - 1] != B[|A| - 1]
  {
    var n := |A|;
    assert B[n].Pos() == B[n - 1].End();
  }

  // ---- whole runs ----

  // malloc of nu units (nu >= 2), or free of the block whose header is at pos.
  datatype Op = Malloc(nu: nat) | Free(pos: nat)

  function LiveIndex(L: Layout, pos: nat, i: nat): (j: nat)
    requires i <= |L|
    ensures i <= j <= |L|
    ensures j < |L| ==> !L[j].free && L[j].Pos() == pos
    decreases |L| - i
  {
    if i == |L| || (!L[i].free && L[i].Pos() == pos) then i else LiveIndex(L, pos, i + 1)
  }

  function Step(L: Layout, op: Op): Layout
  {
    match op
    case Malloc(nu) =>
      var j := FirstFit(L, nu, 0);
      if nu < 1 || j == |L| then L else Take(L, j, nu)
    case Free(pos) =>
      var j := LiveIndex(L, pos, 0);
      if j == |L| then L else Freed(L, j)
  }

  function Run(ops: seq<Op>): Layout
  {
    if ops == [] then Initial() else Step(Run(ops[..|ops| - 1]), ops[|ops| - 1])
  }

  lemma StepOfFree(L: Layout, j: nat)
    requires Tiled(L) && j < |L| && !L[j].free
    ensures Step(L, Free(L[j].Pos())) == Freed(L, j)
  {
    hide Freed;
    FoundLive(L, j, 0);
    SamePosSameIndex(L, LiveIndex(L, L[j].Pos(), 0), j);
  }

  lemma {:induction false} FoundLive(L: Layout, j: nat, i: nat)
    requires i <= j < |L| && !L[j].free
    ensures LiveIndex(L, L[j].Pos(), i) < |L|
    decreases j - i
  {
    if i < j { FoundLive(L, j, i + 1); }
  }

  lemma InitialTiled()
    ensures Tiled(Initial()) && Coalesced(Initial())
    ensures FreeUnits(Initial()) == ARENAS * ARENA_UNITS
    ensures forall b :: b in Initial() ==> b.free
  {
    Conservation(Initial());
    NoLiveUnits(Initial());
  }

  lemma {:induction false} NoLiveUnits(L: Layout)
    requires forall b :: b in L ==> b.free
    ensures LiveUnits(L) == 0
  {
    if L != [] {
      assert L[0] in L;
      NoLiveUnits(L[1..]);
    }
  }

  // Every reachable heap is a coalesced tiling whose units are conserved.
  lemma {:induction false} RunInvariant(ops: seq<Op>)
    ensures Tiled(Run(ops)) && Coalesced(Run(ops))
    ensures FreeUnits(Run(ops)) + LiveUnits(Run(ops)) == ARENAS * ARENA_UNITS
  {
    hide Tiled, Coalesced, Initial, Take, Freed;
    if ops == [] {
      InitialTiled();
    } else {
      var L, op := Run(ops[..|ops| - 1]), ops[|ops| - 1];
      RunInvariant(ops[..|ops| - 1]);
      match op {
        case Malloc(nu) =>
          var j := FirstFit(L, nu, 0);
          if nu >= 1 && j < |L| { TakeKeeps(L, j, nu); }
        case Free(pos) =>
          var j := LiveIndex(L, pos, 0);
          if j < |L| { FreedKeeps(L, j); }
      }
    }
    Conservation(Run(ops));
  }

  // Once every block has been given back, in whatever order, the heap is the initial one.
  lemma AllFreedIsInitial(ops: seq<Op>)
    requires forall b :: b in Run(ops) ==> b.free
    ensures Run(ops) == Initial()
  {
    RunInvariant(ops);
    InitialTiled();
    LiveDeterminesLayout(Run(ops), Initial());
  }
}
