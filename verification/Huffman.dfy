// huft_build of loader/src/inflate.c.
module Huffman {
  import opened Bits
  import opened Canonical
  import opened HeapLayout
  import opened Alloc
  import opened Tables
  import opened BuildInvariant
  import opened BuildSteps
  import opened BuildHole
  import opened BuildLoop
  import opened HuftStore

  // ---- one code ----

  // inflate.c:428-442: the entry for the next code; rv is what r.v still holds.
  method MakeEntry(cs: CodeSet, v: seq<nat>, p: nat, b: nat, rv: int, ghost c: seq<nat>, ghost g: nat, ghost k: nat,
                   ghost r: nat)
    returns (e: Huft, p': nat)
    requires Meaningful(cs) && Padded(cs.lens, c, g) && 1 <= k <= g && |cs.lens| <= N_MAX == |v|
             && InCodeOrder(cs.lens, v)
    requires p == if Before(c, k) + r < |cs.lens| then Before(c, k) + r else |cs.lens|
    ensures e.b == b
    ensures Known(cs, c, k, r) ==> IsLeaf(e) && LeafOk(cs, c, k, r, e.e, e.v)
    ensures p' == if Before(c, k) + r + 1 < |cs.lens| then Before(c, k) + r + 1 else |cs.lens|
  {
    hide Count, Before, First;
    PaddedFirst(cs.lens, c, g, k);
    EntrySymbol(cs, c, g, v, k, r);
    p' := p;
    if p >= |cs.lens| {
      e := Huft(99, b, rv);
    } else {
      if v[p] < cs.s {
        e := Huft(if v[p] < 256 then 16 else 15, b, v[p]);
      } else if v[p] - cs.s < |cs.e| && v[p] - cs.s < |cs.d| {
        e := Huft(cs.e[v[p] - cs.s], b, cs.d[v[p] - cs.s]);
      } else {
        e := *;               // v[p] was never written: the lists are read out of bounds
        e := e.(b := b);
      }
      p' := p + 1;
    }
  }

  // The symbol of a code is the one v lists at its place.
  lemma EntrySymbol(cs: CodeSet, c: seq<nat>, g: nat, v: seq<nat>, k: nat, r: nat)
    requires Meaningful(cs) && Padded(cs.lens, c, g) && 1 <= k <= g && |cs.lens| <= |v| && InCodeOrder(cs.lens, v)
    ensures forall sym :: 0 <= sym < |cs.lens| && cs.lens[sym] == k && Rank(cs.lens, sym) == r ==>
              Before(c, k) + r < |cs.lens| && v[Before(c, k) + r] == sym
    ensures r < Count(cs.lens, k) ==> Before(c, k) + r < |cs.lens| && v[Before(c, k) + r] < |cs.lens|
  {
    hide Count, Before, First;
    PaddedFirst(cs.lens, c, g, k);
    forall sym | 0 <= sym < |cs.lens| && cs.lens[sym] == k && Rank(cs.lens, sym) == r
      ensures Before(c, k) + r < |cs.lens| && v[Before(c, k) + r] == sym
    {
      PlaceOf(cs.lens, sym);
    }
    if r < Count(cs.lens, k) { var sym := RankOnto(cs.lens, k, r); }
  }

  // inflate.c:444-447: every Pow2(n)-th entry from start on.
  method Fill(ent: seq<Huft>, start: nat, n: nat, r: Huft) returns (out: seq<Huft>)
    requires Low(start, n) == start
    ensures Filled(ent, out, start, n, r)
  {
    hide Low, Pow2;
    out := ent;
    var j, f := start, Pow2(n);
    LowFirst(start, n);
    while j < |ent|
      invariant |out| == |ent| && Low(j, n) == start
      invariant forall m :: 0 <= m < |ent| ==> out[m] == if m < j && Low(m, n) == start then r else ent[m]
      invariant forall m :: 0 <= m < j && Low(m, n) == start ==> m < |ent|
      decreases |ent| - j
    {
      LowAdd(j, n);
      LowGap(j, n);
      out := out[j := r];
      j := j + f;
    }
  }

  // No number below start has the same low bits.
  lemma LowFirst(start: nat, n: nat)
    requires Low(start, n) == start
    ensures forall m :: 0 <= m < start ==> Low(m, n) != start
  {
    forall m: nat | m < start ensures Low(m, n) != start {
      if Low(m, n) == start {
        LowApart(m, start, n);
        LowSize(start, n);
      }
    }
  }

  lemma {:induction false} LowSize(x: nat, n: nat)
    ensures Low(x, n) < Pow2(n)
  {
    if n > 0 { LowSize(x / 2, n - 1); }
  }

  lemma LowGap(j: nat, n: nat)
    ensures forall m :: j < m < j + Pow2(n) ==> Low(m, n) != Low(j, n)
  {
    forall m: nat | j < m < j + Pow2(n) ensures Low(m, n) != Low(j, n) {
      if Low(m, n) == Low(j, n) { LowApart(j, m, n); }
    }
  }

  // ---- the tables ----

  // The tables after a new one is chained behind tail and linked from parent.
  function LinkIn(T: Tabs, q: int, tab: Table, tail: int, parent: int, j: nat, e: Huft): Tabs
    requires tail != 0 ==> tail in T
    requires parent != 0 ==> parent in T && j < |T[parent].ent|
    requires q !in T
  {
    var T1 := T[q := tab];
    var T2 := if tail == 0 then T1 else T1[tail := T1[tail].(link := q)];
    if parent == 0 then T2 else T2[parent := T2[parent].(ent := T2[parent].ent[j := e])]
  }

  lemma LinkInGrown(T: Tabs, q: int, tab: Table, tail: int, l: nat, u: seq<int>, nh: nat, cur: seq<bool>, tb: nat,
                    j: nat)
    requires nh <= |u| && Off(l, nh) <= |cur| && q !in T && |tab.ent| == Pow2(tb) && (tail != 0 ==> tail in T)
    requires nh > 0 ==> u[nh - 1] != 0 && u[nh - 1] in T && j < |T[u[nh - 1]].ent|
                        && Off(l, nh - 1) <= Off(l, nh) && j == Num(cur[Off(l, nh - 1)..Off(l, nh)])
    ensures Grown(T, LinkIn(T, q, tab, tail, if nh == 0 then 0 else u[nh - 1], j, Huft(16 + tb, l, q)), l, u, nh, cur,
            q, tb)
  {
  }

  // What linking in does to each table.
  lemma LinkInEach(T: Tabs, q: int, tab: Table, tail: int, parent: int, j: nat, e: Huft)
    requires q !in T && (tail != 0 ==> tail in T) && (parent != 0 ==> parent in T && j < |T[parent].ent|)
    ensures var T' := LinkIn(T, q, tab, tail, parent, j, e);
            && T'.Keys == T.Keys + {q} && T'[q] == tab
            && (forall t :: t in T ==> T'[t].link == if t == tail && tail != 0 then q else T[t].link)
            && (forall t :: t in T && (tail == 0 || t != tail) && (parent == 0 || t != parent) ==> T'[t] == T[t])
  {
  }

  // The tables of a chain are apart from the old ones, and its last one is at its end only.
  lemma ChainApart(T0: Tabs, T: Tabs, live0: map<int, Block>, live: map<int, Block>, ts: seq<int>)
    requires Owned(T0, T, live0, live, ts)
    ensures forall t :: t in T0 ==> t in T && t !in ts
    ensures forall i {:trigger ts[i]} :: 0 <= i < |ts| ==>
              ts[i] in T && ts[i] != 0 && (ts[i] == Last(ts) <==> i + 1 == |ts|)
  {
    forall t | t in T0 ensures t in T && t !in ts { ElementsMember(ts, t); }
  }

  lemma LinkInOwned(T0: Tabs, T: Tabs, live0: map<int, Block>, live: map<int, Block>, ts: seq<int>, q: int, tab: Table,
                    parent: int, j: nat, e: Huft, b: Block)
    requires Owned(T0, T, live0, live, ts) && q !in T && q - HUFT !in live && q != 0 && tab.link == 0
    requires parent != 0 ==> parent in ts && parent in T && j < |T[parent].ent|
    ensures Last(ts) != 0 ==> Last(ts) in T
    ensures Owned(T0, LinkIn(T, q, tab, Last(ts), parent, j, e), live0, live[q - HUFT := b], ts + [q])
  {
    hide Owned, LinkIn;
    ChainApart(T0, T, live0, live, ts);
    assert ts != [] ==> ts[|ts| - 1] in T;
    var T' := LinkIn(T, q, tab, Last(ts), parent, j, e);
    LinkInEach(T, q, tab, Last(ts), parent, j, e);
    OwnedGrow(T0, T, live0, live, ts, q, b, T');
  }

  function Last(ts: seq<int>): int { if ts == [] then 0 else ts[|ts| - 1] }

  // The bits of the current code above the new table's prefix are zero.
  lemma AlignedNum(l: nat, nh: nat, cur: seq<bool>)
    requires Aligned(l, nh, cur) && Off(l, nh) <= |cur|
    ensures Num(cur[..Off(l, nh)]) == Num(cur)
    ensures nh > 0 ==> Off(l, nh - 1) <= Off(l, nh)
                       && High(Num(cur), Off(l, nh - 1)) == Num(cur[Off(l, nh - 1)..Off(l, nh)])
  {
    hide Num, High;
    var v := Off(l, nh);
    TrailingZeros(cur, v);
    if nh > 0 {
      var a := Off(l, nh - 1);
      NumSplit(cur, a);
      TrailingZeros(cur[a..], l);
      SliceTake(cur, a, |cur|, l);
      assert cur[a..|cur|] == cur[a..];
    }
  }

  lemma TrailingZeros(s: seq<bool>, v: nat)
    requires v <= |s| && forall j :: v <= j < |s| ==> !s[j]
    ensures Num(s[..v]) == Num(s)
  {
    assert s == s[..v] + s[v..];
    NumAppend(s[..v], s[v..]);
    ZerosAreZero(s[v..]);
  }

  // ---- the main loop ----

  // What stays fixed: counts with the last one filled up, symbols in order of code,
  // longest length g, bits per table l.
  datatype Env = Env(cs: CodeSet, c: seq<nat>, v: seq<nat>, g: nat, l: nat)

  // The locals of inflate.c:365-461: level, bits before the current table, bit-reversed
  // code, next index in v, current table and its size, table stack, code stack, first
  // table, the table whose link is written next, and what r.v holds.
  datatype Regs = Regs(h: int, w: int, i: nat, p: nat, q: int, z: nat, u: seq<int>, x: seq<nat>, root: int, tail: int,
                       rv: int)

  // The current code, what each table serves, the tables in order of allocation, and what is
  // wrong with them.
  datatype Shadow = Shadow(cur: seq<bool>, M: Nodes, ts: seq<int>, hole: Option<Hole>)

  // The entry the hole leads to holds what memory held.
  ghost predicate Sourced(junk: (nat, int, nat) -> Huft, d: Shadow)
  {
    d.hole.Some? ==> Junk(junk, d.M, d.hole.value)
  }

  ghost predicate Junk(junk: (nat, int, nat) -> Huft, M: Nodes, hole: Hole)
  {
    && 1 <= |hole.path|
    && var q := hole.path[|hole.path| - 1];
    && q in M && Serves(M[q], hole.bs) && exists n :: hole.was == junk(n, q, Index(M[q], hole.bs))
  }

  ghost predicate Fixed(env: Env)
  {
    && Padded(env.cs.lens, env.c, env.g) && Meaningful(env.cs) && |env.cs.lens| <= N_MAX == |env.v|
    && InCodeOrder(env.cs.lens, env.v)
    && 1 <= env.l <= env.g
  }

  ghost predicate RegsOk(env: Env, T: Tabs, s: Regs, d: Shadow, k: nat, r: nat)
  {
    && -1 <= s.h < BMAX && s.w + env.l == Off(env.l, s.h + 1) && s.i == Num(d.cur)
    && (d.ts == [] <==> s.h == -1) && s.root == Head(d.ts) && s.tail == Last(d.ts)
    && |s.u| == BMAX && |s.x| == BMAX + 1 && (s.h == -1 ==> s.x[0] == 0)
    && (s.h >= 0 ==> s.u[0] == s.root)
    && (s.h >= 0 && k <= s.w + env.l ==> s.q == s.u[s.h] && s.q in T && s.z == |T[s.q].ent|)
    && k <= |env.c| && s.p == if Before(env.c, k) + r < |env.cs.lens| then Before(env.c, k) + r else |env.cs.lens|
  }

  ghost predicate Inv(env: Env, T0: Tabs, live0: map<int, Block>, T: Tabs, live: map<int, Block>, s: Regs, d: Shadow,
                      k: nat, r: nat)
  {
    && Fixed(env)
    && Owned(T0, T, live0, live, d.ts) && d.M.Keys == Elements(d.ts)
    && RegsOk(env, T, s, d, k, r)
    && BuildInv(T, d.M, env.cs, env.c, env.g, env.l, s.u, s.x, s.h + 1, d.cur, k, r, d.hole)
  }

  // inflate.c:384-385 and 412-424 without the table contents.
  function AfterLevel(env: Env, s: Regs, q: int, tb: nat): Regs
    requires -1 <= s.h && s.h + 1 < |s.u| && s.h + 1 < |s.x|
  {
    s.(h := s.h + 1, w := s.w + env.l, q := q, z := Pow2(tb), u := s.u[s.h + 1 := q],
       x := if s.h >= 0 then s.x[s.h + 1 := s.i] else s.x,
       root := if s.tail == 0 then q else s.root, tail := q)
  }

  function Parent(s: Regs): int
    requires s.h < |s.u|
  {
    if s.h >= 0 then s.u[s.h] else 0
  }

  // What holds when a table has to be added.
  lemma LevelNeeds(env: Env, T0: Tabs, live0: map<int, Block>, T: Tabs, live: map<int, Block>, s: Regs, d: Shadow,
                   k: nat, r: nat)
    requires Inv(env, T0, live0, T, live, s, d, k, r) && k > s.w + env.l && Be(d.cur) == First(env.c, k) + r
    ensures |env.c| == BMAX + 1 && Complete(env.c, env.g) && 1 <= env.l <= env.g <= BMAX && 1 <= k <= env.g
    ensures var w := s.w + env.l;
            && w == Off(env.l, s.h + 1) >= 0 && s.h + 1 < BMAX && |d.cur| == k && w < k
            && (forall j :: w <= j < k ==> !d.cur[j]) && (w >= env.l <==> s.h >= 0) && (w == 0 <==> s.h == -1)
    ensures s.h >= 0 ==>
              && Parent(s) != 0 && Parent(s) in d.ts && Parent(s) in T
              && High(s.i, s.w) == Num(d.cur[s.w..s.w + env.l]) < |T[Parent(s)].ent|
    ensures s.i == Num(d.cur[..s.w + env.l])
  {
    hide Num, Be, Pow2, High, First, Before, AllDone, Links, Cap, Owned, Whole, Broken, Levels, Complete, Fixed;
    OffMono(env.l, s.h + 1, s.h + 1);
    OffMono(env.l, 0, s.h + 1);
    if s.h >= 0 {
      OffMono(env.l, 1, s.h + 1);
      ParentWide(T, d.M, env.c, env.g, env.l, s.u, s.x, s.h + 1, d.cur);
      ElementsMember(d.ts, s.u[s.h]);
      OwnedNonzero(T0, T, live0, live, d.ts, s.u[s.h]);
    }
    AlignedNum(env.l, s.h + 1, d.cur);
  }

  lemma OwnedNonzero(T0: Tabs, T: Tabs, live0: map<int, Block>, live: map<int, Block>, ts: seq<int>, t: int)
    requires Owned(T0, T, live0, live, ts) && t in ts
    ensures t != 0 && t in T
  {
    var i :| 0 <= i < |ts| && ts[i] == t;
  }

  function AfterShadow(env: Env, s: Regs, d: Shadow, q: int, tb: nat, ent: seq<Huft>): (r: Shadow)
    requires -1 <= s.h < |s.u| && Off(env.l, s.h + 1) <= |d.cur| && Off(env.l, s.h + 1) <= env.g && |ent| == Pow2(tb)
    ensures r.cur == d.cur
  {
    Shadow(d.cur, d.M[q := NewNode(d.cur, env.l, s.h + 1, tb)], d.ts + [q],
           NextHole(d.hole, env.g, env.l, s.u, s.h + 1, d.cur, q, tb, ent))
  }

  // The state after a table is added.
  lemma LevelDone(env: Env, T0: Tabs, live0: map<int, Block>, T: Tabs, live: map<int, Block>, s: Regs, d: Shadow,
                  k: nat, r: nat, q: int, tab: Table, tb: nat, b: Block)
    requires Inv(env, T0, live0, T, live, s, d, k, r) && k > s.w + env.l && k < |env.c| && r < env.c[k]
    requires Be(d.cur) == First(env.c, k) + r
    requires q !in T && q - HUFT !in live && q != 0 && |tab.ent| == Pow2(tb) && tab.link == 0
    requires 1 <= tb && s.w + env.l + tb <= env.g && s.w + env.l <= |d.cur| && s.w + env.l >= 0
    requires Cap(env.c, d.cur[..s.w + env.l], tb, env.l) && (s.w + env.l == 0 ==> tb >= env.l)
    requires env.g < |env.c| && s.w + env.l < k
    requires tb > env.l <==> !Fits(env.c, k, s.w + env.l, Be(d.cur[..s.w + env.l]), env.l)
    requires s.tail != 0 ==> s.tail in T
    requires s.h < |s.u| && (Parent(s) != 0 ==> Parent(s) in T && High(s.i, s.w) < |T[Parent(s)].ent|)
    requires s.h + 1 < BMAX && 0 <= s.w + env.l && (s.h >= 0 ==> s.w >= 0)
    ensures var T' := LinkIn(T, q, tab, s.tail, Parent(s), if s.h >= 0 then High(s.i, s.w)
            else 0, Huft(16 + tb, env.l, q));
            s.w + env.l == Off(env.l, s.h + 1) <= env.g
            && Inv(env, T0, live0, T', live[q - HUFT := b], AfterLevel(env, s, q, tb),
               AfterShadow(env, s, d, q, tb, tab.ent), k, r)
  {
    hide Num, Be, Pow2, High, First, Before, Cap, Owned, BuildInv, LinkIn, Fixed, Padded, NextHole, Fits, InCodeOrder;
    hide Complete;
    LevelNeeds(env, T0, live0, T, live, s, d, k, r);
    var j := if s.h >= 0 then High(s.i, s.w) else 0;
    var e := Huft(16 + tb, env.l, q);
    var T' := LinkIn(T, q, tab, s.tail, Parent(s), j, e);
    LinkInOwned(T0, T, live0, live, d.ts, q, tab, Parent(s), j, e, b);
    LinkInGrown(T, q, tab, s.tail, env.l, s.u, s.h + 1, d.cur, tb, j);
    ElementsAppend(d.ts, q);
    assert q !in d.M by { OwnedFresh(T0, T, live0, live, d.ts, q); }
    StepLevel(T, T', d.M, env.cs, env.c, env.g, env.l, s.u, s.x, s.h + 1, d.cur, k, r, d.hole, q, tb);
    NumNil();
    assert d.cur[..0] == [];
    assert AfterLevel(env, s, q, tb).x == s.x[s.h + 1 := Num(d.cur[..Off(env.l, s.h + 1)])];
    LinkInTop(T, q, tab, s.tail, Parent(s), j, e);
    ChainEnds(T0, T, live0, live, d.ts, q);
  }

  lemma ChainEnds(T0: Tabs, T: Tabs, live0: map<int, Block>, live: map<int, Block>, ts: seq<int>, q: int)
    requires Owned(T0, T, live0, live, ts)
    ensures Last(ts + [q]) == q && (ts == [] <==> Last(ts) == 0)
    ensures Head(ts + [q]) == if ts == [] then q else Head(ts)
  {
    if ts != [] { OwnedNonzero(T0, T, live0, live, ts, ts[|ts| - 1]); }
  }

  lemma NumNil()
    ensures Num([]) == 0
  {
  }

  lemma LinkInTop(T: Tabs, q: int, tab: Table, tail: int, parent: int, j: nat, e: Huft)
    requires tail != 0 ==> tail in T
    requires parent != 0 ==> parent in T && j < |T[parent].ent|
    requires q !in T
    ensures q in LinkIn(T, q, tab, tail, parent, j, e) && LinkIn(T, q, tab, tail, parent, j, e)[q].ent == tab.ent
  {
  }

  lemma OwnedFresh(T0: Tabs, T: Tabs, live0: map<int, Block>, live: map<int, Block>, ts: seq<int>, q: int)
    requires Owned(T0, T, live0, live, ts) && q !in T
    ensures q !in Elements(ts)
  {
  }

  lemma TableSize(j: nat)
    requires j <= BMAX
    ensures 1 <= Pow2(j) <= 65536
  {
    Pow2Mono(j, BMAX);
    SmallPowers();
  }

  // inflate.c:384-425: one more table on the stack, or false when memory runs out and
  // everything built so far has been freed.
  method NewLevel(store: Store, env: Env, s0: Regs, k: nat, a: nat, ghost d0: Shadow, ghost r: nat, ghost T0: Tabs,
                  ghost live0: map<int, Block>)
    returns (ok: bool, s: Regs, ghost d: Shadow)
    requires store.Valid() && Inv(env, T0, live0, store.tables, store.heap.live, s0, d0, k, r)
    requires k < |env.c| && r + a + 1 == env.c[k] && Be(d0.cur) == First(env.c, k) + r && k > s0.w + env.l
    requires Sourced(store.junk, d0)
    modifies store, store.heap
    ensures store.Valid() && (ok ==> Sourced(store.junk, d))
    ensures ok ==>
              Inv(env, T0, live0, store.tables, store.heap.live, s, d, k, r) && d.cur == d0.cur && s.w == s0.w + env.l
    ensures !ok ==> store.tables == T0 && store.heap.live == live0
    ensures store.heap.refusals == old(store.heap.refusals) + if ok then 0 else 1
  {
    hide BuildInv, Owned, Num, Be, Pow2, First, Before, High, Off, Cap, Fixed, LinkIn, Allocator.Valid, Complete;
    hide NextHole, AfterShadow, Fits, Sourced, NewNode;
    ghost var T, live := store.tables, store.heap.live;
    LevelNeeds(env, T0, live0, T, live, s0, d0, k, r);
    ChainEnds(T0, T, live0, live, d0.ts, 0);
    if s0.tail != 0 { OwnedNonzero(T0, T, live0, live, d0.ts, d0.ts[|d0.ts| - 1]); }
    s, d := s0.(h := s0.h + 1, w := s0.w + env.l), d0;
    var j := TableBits(env.c, k, a, s.w, env.l, env.g, d0.cur);
    TableSize(j);
    ghost var serial := store.serial;
    var q := store.NewTable(Pow2(j));
    if q == 0 {
      if s.h > 0 {
        store.HuftFree(s.u[0], d0.ts, T0, live0);
      } else {
        OwnedFacts(T0, T, live0, live, d0.ts);
      }
      return false, s, d;
    }
    ghost var tab := store.tables[q];
    LevelDone(env, T0, live0, T, live, s0, d0, k, r, q, tab, j, store.heap.live[q - HUFT]);
    s := Attach(store, env, s0, q, j, T);
    d := AfterShadow(env, s0, d0, q, j, tab.ent);
    OwnedFresh(T0, T, live0, live, d0.ts, q);
    NextSourced(store.junk, env, s0, d0, q, j, tab.ent, serial);
    return true, s, d;
  }

  // inflate.c:412-424: chain the new table behind the last one, put it on the stack and link it
  // from the table below.
  method Attach(store: Store, env: Env, s0: Regs, q: int, j: nat, ghost T: Tabs) returns (s: Regs)
    requires store.Valid() && q !in T && q in store.tables && store.tables == T[q := store.tables[q]]
    requires -1 <= s0.h && s0.h + 1 < |s0.u| && s0.h + 1 < |s0.x| && (s0.tail != 0 ==> s0.tail in T)
             && (s0.h >= 0 ==> s0.w >= 0)
    requires s0.h >= 0 ==> Parent(s0) != 0 && Parent(s0) in T && High(s0.i, s0.w) < |T[Parent(s0)].ent|
    modifies store
    ensures store.Valid() && store.heap.live == old(store.heap.live) && store.heap.refusals == old(store.heap.refusals)
    ensures s == AfterLevel(env, s0, q, j)
    ensures store.tables == LinkIn(T, q, old(store.tables)[q], s0.tail, Parent(s0), if s0.h >= 0 then High(s0.i, s0.w)
            else 0, Huft(16 + j, env.l, q))
  {
    hide High, Pow2, LinkIn, Allocator.Valid;
    ghost var tab := store.tables[q];
    s := s0.(h := s0.h + 1, w := s0.w + env.l, q := q, z := Pow2(j));
    if s.tail == 0 {
      s := s.(root := q);
    } else {
      store.tables := store.tables[s.tail := store.tables[s.tail].(link := q)];
    }
    s := s.(tail := q, u := s.u[s.h := q]);
    if s.h > 0 {
      s := s.(x := s.x[s.h := s.i]);
      var i, up := High(s.i, s.w - env.l), s.u[s.h - 1];
      store.tables := store.tables[up := store.tables[up].(ent := store.tables[up].ent[i := Huft(16 + j, env.l, q)])];
    }
    LinkInIs(T, q, tab, s0.tail, Parent(s0), if s0.h >= 0 then High(s0.i, s0.w)
      else 0, Huft(16 + j, env.l, q), store.tables);
  }

  lemma NextSourced(junk: (nat, int, nat) -> Huft, env: Env, s: Regs, d: Shadow, q: int, tb: nat, ent: seq<Huft>,
                    n: nat)
    requires -1 <= s.h < |s.u| && Off(env.l, s.h + 1) <= |d.cur| && Off(env.l, s.h + 1) + tb <= env.g
             && |ent| == Pow2(tb)
    requires Sourced(junk, d) && q !in d.M && (forall i :: 0 <= i < |ent| ==> ent[i] == junk(n, q, i))
    ensures Sourced(junk, AfterShadow(env, s, d, q, tb, ent))
  {
    hide Num, Pow2;
    if d.hole.None? && s.h >= 0 && tb > env.l {
      var w := Off(env.l, s.h + 1);
      OnesAfter(d.cur, env.g, w, w);
      OnesSlice(d.cur[..w] + Trues(env.g - w), w, tb);
      var d' := AfterShadow(env, s, d, q, tb, ent);
      assert d'.hole.value.was == junk(n, q, Index(d'.M[q], d'.hole.value.bs));
    }
  }

  lemma LinkInIs(T: Tabs, q: int, tab: Table, tail: int, parent: int, j: nat, e: Huft, T': Tabs)
    requires tail != 0 ==> tail in T
    requires parent != 0 ==> parent in T && j < |T[parent].ent|
    requires q !in T
    requires T' == (var T1 := T[q := tab];
                    var T2 := if tail == 0 then T1 else T1[tail := T1[tail].(link := q)];
                    if parent == 0 then T2 else T2[parent := T2[parent].(ent := T2[parent].ent[j := e])])
    ensures T' == LinkIn(T, q, tab, tail, parent, j, e)
    ensures T'.Keys == T.Keys + {q}
  {
  }

  // inflate.c:380-426: tables up to the level that holds the current code.
  method Deepen(store: Store, env: Env, s0: Regs, k: nat, a: nat, ghost d0: Shadow, ghost r: nat, ghost T0: Tabs,
                ghost live0: map<int, Block>)
    returns (ok: bool, s: Regs, ghost d: Shadow)
    requires store.Valid() && Inv(env, T0, live0, store.tables, store.heap.live, s0, d0, k, r)
    requires k < |env.c| && r + a + 1 == env.c[k] && Be(d0.cur) == First(env.c, k) + r && Sourced(store.junk, d0)
    modifies store, store.heap
    ensures store.Valid() && (ok ==> Sourced(store.junk, d))
    ensures ok ==> Inv(env, T0, live0, store.tables, store.heap.live, s, d, k, r) && d.cur == d0.cur && k <= s.w + env.l
    ensures !ok ==> store.tables == T0 && store.heap.live == live0
    ensures store.heap.refusals == old(store.heap.refusals) + if ok then 0 else 1
  {
    hide Inv, Be, First, Allocator.Valid;
    s, d, ok := s0, d0, true;
    LBound(env, T0, live0, store.tables, store.heap.live, s, d, k, r);
    while k > s.w + env.l
      invariant store.Valid() && Inv(env, T0, live0, store.tables, store.heap.live, s, d, k, r) && d.cur == d0.cur
                && Sourced(store.junk, d)
      invariant store.heap.refusals == old(store.heap.refusals)
      decreases k - s.w
    {
      ok, s, d := NewLevel(store, env, s, k, a, d, r, T0, live0);
      if !ok { return; }
    }
  }

  lemma LBound(env: Env, T0: Tabs, live0: map<int, Block>, T: Tabs, live: map<int, Block>, s: Regs, d: Shadow, k: nat,
               r: nat)
    requires Inv(env, T0, live0, T, live, s, d, k, r)
    ensures env.l >= 1
  {
  }

  // ---- placing a code and moving on ----

  // Two prefixes of one length agree when their bit-reversed values do.
  lemma PrefixByNum(a: seq<bool>, b: seq<bool>, w: nat)
    requires w <= |a| && w <= |b|
    ensures Low(Num(a), w) == Num(b[..w]) <==> a[..w] == b[..w]
  {
    hide Num, Low;
    NumSplit(a, w);
    if Num(a[..w]) == Num(b[..w]) { NumInjective(a[..w], b[..w]); }
  }

  // inflate.c:454-459: back up over finished tables.
  method PopLevels(l: nat, i: nat, x: seq<nat>, h0: int, w0: int, ghost T: Tabs, ghost M: Nodes, ghost c: seq<nat>,
                   ghost g: nat, ghost u: seq<int>, ghost cur: seq<bool>)
    returns (h: int, w: int)
    requires h0 >= 0 && Levels(T, M, c, g, l, u, x, h0 + 1, cur) && i == Num(Inc(cur)) && w0 == Off(l, h0)
    ensures 0 <= h <= h0 && w == Off(l, h) && Popped(l, h0 + 1, cur, h + 1)
  {
    hide Num, Inc, Low, Cap, Pow2;
    h, w := h0, w0;
    LevelPrefix(T, M, c, g, l, u, x, h0 + 1, cur, h);
    PrefixByNum(Inc(cur), cur, w);
    while Low(i, w) != x[h]
      invariant 0 <= h <= h0 && w == Off(l, h) <= |cur| && x[h] == Num(cur[..w])
      invariant (h == 0 ==> w == 0) && Inc(cur)[..0] == cur[..0]
      invariant Low(i, w) == x[h] <==> Inc(cur)[..w] == cur[..w]
      invariant h < h0 ==> Off(l, h + 1) <= |cur| && Inc(cur)[..Off(l, h + 1)] != cur[..Off(l, h + 1)]
      decreases h
    {
      h := h - 1;
      w := w - l;
      LevelPrefix(T, M, c, g, l, u, x, h0 + 1, cur, h);
      PrefixByNum(Inc(cur), cur, w);
    }
  }

  lemma LevelPrefix(T: Tabs, M: Nodes, c: seq<nat>, g: nat, l: nat, u: seq<int>, x: seq<nat>, nh: nat, cur: seq<bool>,
                    h: nat)
    requires Levels(T, M, c, g, l, u, x, nh, cur) && h < nh
    ensures h < |x| && Off(l, h) < |cur| && x[h] == Num(cur[..Off(l, h)]) && (h == 0 ==> Off(l, h) == 0)
  {
    hide Num, Cap, Pow2;
    assert LevelOk(T, M, c, g, l, u, x, h, cur);
  }

  // What holds when the current code fits the table on top.
  lemma CodeNeeds(env: Env, T0: Tabs, live0: map<int, Block>, T: Tabs, live: map<int, Block>, s: Regs, d: Shadow,
                  k: nat, r: nat)
    requires Inv(env, T0, live0, T, live, s, d, k, r) && k < |env.c| && r < env.c[k]
    requires k <= s.w + env.l && Be(d.cur) == First(env.c, k) + r
    ensures 0 <= s.h < BMAX && s.w == Off(env.l, s.h) && 0 <= s.w < k == |d.cur|
    ensures 1 <= k <= env.g <= BMAX && |env.c| == BMAX + 1 && |s.u| == BMAX
    ensures s.q == s.u[s.h] && s.q in T && s.q in d.ts && s.z == |T[s.q].ent|
    ensures High(s.i, s.w) == Num(d.cur[s.w..]) && Low(High(s.i, s.w), k - s.w) == High(s.i, s.w)
    ensures s.i == Num(d.cur)
    ensures Levels(T, d.M, env.c, env.g, env.l, s.u, s.x, s.h + 1, d.cur)
  {
    hide Num, Be, Pow2, High, Low, First, Before, AllDone, Links, Cap, Owned;
    assert s.h >= 0 by { if s.h == -1 { OffZero(env.l); } }
    assert LevelOk(T, d.M, env.c, env.g, env.l, s.u, s.x, s.h, d.cur);
    NumSplit(d.cur, s.w);
    NumBound(d.cur[s.w..]);
    LowBelow(Num(d.cur[s.w..]), k - s.w);
    ElementsMember(d.ts, s.q);
  }

  lemma OffZero(l: nat)
    ensures Off(l, 0) == 0
  {
  }

  // The state after a code is placed and the stack popped.
  lemma CodeDone(env: Env, T0: Tabs, live0: map<int, Block>, T: Tabs, live: map<int, Block>, s: Regs, d: Shadow,
                 k: nat, r: nat, ent: seq<Huft>, e: Huft, s': Regs)
    requires Inv(env, T0, live0, T, live, s, d, k, r) && k < |env.c| && r < env.c[k]
    requires k <= s.w + env.l && Be(d.cur) == First(env.c, k) + r && s.q in T
    requires 0 <= s.w <= k == |d.cur| && Filled(T[s.q].ent, ent, Num(d.cur[s.w..]), k - s.w, e) && e.b == k - s.w
    requires Known(env.cs, env.c, k, r) ==> IsLeaf(e) && LeafOk(env.cs, env.c, k, r, e.e, e.v)
    requires 0 <= s'.h <= s.h && s'.w == Off(env.l, s'.h) && Popped(env.l, s.h + 1, d.cur, s'.h + 1)
    requires s' == s.(h := s'.h, w := s'.w, i := s'.i, p := s'.p, rv := s'.rv) && s'.i == Num(Inc(d.cur))
    requires s'.p == if Before(env.c, k) + r + 1 < |env.cs.lens| then Before(env.c, k) + r + 1 else |env.cs.lens|
    ensures Inv(env, T0, live0, T[s.q := T[s.q].(ent := ent)], live, s', d.(cur := Inc(d.cur)), k, r + 1)
  {
    hide Num, Be, Inc, Pow2, High, Low, First, Before, Owned, BuildInv, Known, LeafOk, Fixed, Padded, Levels;
    CodeNeeds(env, T0, live0, T, live, s, d, k, r);
    OwnedWrite(T0, T, live0, live, d.ts, s.q, ent);
    StepCode(T, d.M, env.cs, env.c, env.g, env.l, s.u, s.x, s.h + 1, d.cur, k, r, d.hole, ent, e, s'.h + 1);
    if s'.h < s.h { OffMono(env.l, s'.h + 1, s.h); }
  }

  // inflate.c:428-459.
  method PlaceNext(store: Store, env: Env, s0: Regs, k: nat, ghost d0: Shadow, ghost r: nat, ghost T0: Tabs,
                   ghost live0: map<int, Block>)
    returns (s: Regs, ghost d: Shadow)
    requires store.Valid() && Inv(env, T0, live0, store.tables, store.heap.live, s0, d0, k, r)
    requires k < |env.c| && r < env.c[k] && Be(d0.cur) == First(env.c, k) + r && k <= s0.w + env.l
    modifies store
    ensures store.Valid() && d.M == d0.M && d.hole == d0.hole
    ensures Inv(env, T0, live0, store.tables, store.heap.live, s, d, k, r + 1)
  {
    hide BuildInv, Owned, Num, Be, Inc, Pow2, First, Before, High, Low, Off, Cap, Known, LeafOk, Filled, Levels, Popped;
    hide Allocator.Valid;
    ghost var T := store.tables;
    CodeNeeds(env, T0, live0, T, store.heap.live, s0, d0, k, r);
    var e, p := MakeEntry(env.cs, env.v, s0.p, k - s0.w, s0.rv, env.c, env.g, k, r);
    var ent := Fill(store.tables[s0.q].ent, High(s0.i, s0.w), k - s0.w, e);
    store.tables := store.tables[s0.q := store.tables[s0.q].(ent := ent)];
    var i := BackIncrement(s0.i, k, d0.cur);
    var h, w := PopLevels(env.l, i, s0.x, s0.h, s0.w, T, d0.M, env.c, env.g, s0.u, d0.cur);
    s := s0.(h := h, w := w, i := i, p := p, rv := e.v);
    d := d0.(cur := Inc(d0.cur));
    CodeDone(env, T0, live0, T, store.heap.live, s0, d0, k, r, ent, e, s);
  }

  // The state when all codes of length k are placed and length k + 1 begins.
  lemma LengthDone(env: Env, T0: Tabs, live0: map<int, Block>, T: Tabs, live: map<int, Block>, s: Regs, d: Shadow,
                   k: nat)
    requires k < env.g < |env.c| && Inv(env, T0, live0, T, live, s, d, k, env.c[k])
    ensures Inv(env, T0, live0, T, live, s, d.(cur := d.cur + [false]), k + 1, 0)
  {
    hide Num, BuildInv, Owned, Fixed, Padded, Off;
    StepLength(T, d.M, env.cs, env.c, env.g, env.l, s.u, s.x, s.h + 1, d.cur, k, d.hole);
    assert k >= 1 by { KBound(env, T0, live0, T, live, s, d, k, env.c[k]); }
  }

  lemma KBound(env: Env, T0: Tabs, live0: map<int, Block>, T: Tabs, live: map<int, Block>, s: Regs, d: Shadow, k: nat,
               r: nat)
    requires Inv(env, T0, live0, T, live, s, d, k, r)
    ensures 1 <= k <= env.g < |env.c| && r <= env.c[k]
    ensures Be(d.cur) == First(env.c, k) + r || (k == env.g && r == env.c[env.g])
  {
  }

  // inflate.c:374-461: all codes of length k.
  method PlaceLength(store: Store, env: Env, s0: Regs, k: nat, ghost d0: Shadow, ghost T0: Tabs, ghost live0: map<int,
                     Block>)
    returns (ok: bool, s: Regs, ghost d: Shadow)
    requires store.Valid() && Inv(env, T0, live0, store.tables, store.heap.live, s0, d0, k, 0)
             && Sourced(store.junk, d0)
    modifies store, store.heap
    ensures store.Valid() && (ok ==> Sourced(store.junk, d))
    ensures ok ==> k < |env.c| && Inv(env, T0, live0, store.tables, store.heap.live, s, d, k, env.c[k])
    ensures !ok ==> store.tables == T0 && store.heap.live == live0
    ensures store.heap.refusals == old(store.heap.refusals) + if ok then 0 else 1
  {
    hide Inv, Be, First, Allocator.Valid;
    s, d, ok := s0, d0, true;
    KBound(env, T0, live0, store.tables, store.heap.live, s, d, k, 0);
    var a := env.c[k];
    ghost var r := 0;
    while a > 0
      invariant store.Valid() && k < |env.c| && r + a == env.c[k] && store.heap.refusals == old(store.heap.refusals)
      invariant Inv(env, T0, live0, store.tables, store.heap.live, s, d, k, r) && Sourced(store.junk, d)
      decreases a
    {
      a := a - 1;
      KBound(env, T0, live0, store.tables, store.heap.live, s, d, k, r);
      ok, s, d := Deepen(store, env, s, k, a, d, r, T0, live0);
      if !ok { return; }
      s, d := PlaceNext(store, env, s, k, d, r, T0, live0);
      r := r + 1;
    }
  }

  lemma Begin(env: Env, T: Tabs, live: map<int, Block>, k: nat, s: Regs, cur: seq<bool>)
    requires Fixed(env) && Complete(env.c, env.g) && 1 <= k <= env.g && forall j :: 1 <= j < k ==> env.c[j] == 0
    requires |cur| == k && forall j :: 0 <= j < k ==> !cur[j]
    requires s == Regs(-1, -(env.l as int), 0, 0, 0, 0, s.u, s.x, 0, 0, 0) && |s.u| == BMAX && |s.x| == BMAX + 1
             && s.x[0] == 0
    ensures Inv(env, T, live, T, live, s, Shadow(cur, map[], [], None), k, 0)
  {
    hide Num, Be, BuildInv, Owned, InCodeOrder;
    ZerosAreZero(cur);
    NothingBelow(env.c, k, k);
    OwnedNone(T, live);
    Start(T, env.cs, env.c, env.g, env.l, s.u, s.x, k, cur);
  }

  // What the finished tables promise.
  lemma Finished(env: Env, T0: Tabs, live0: map<int, Block>, T: Tabs, live: map<int, Block>, s: Regs, d: Shadow,
                 junk: (nat, int, nat) -> Huft)
    requires env.g < |env.c| && Inv(env, T0, live0, T, live, s, d, env.g, env.c[env.g]) && Sourced(junk, d)
    ensures Owned(T0, T, live0, live, d.ts) && s.root == Head(d.ts) && d.ts != []
    ensures Snug(env.c, env.g, env.l) ==>
              Decodes(T, s.root, env.l, env.cs, env.g) && Rejects(T, s.root, env.l, env.cs, env.g)
    ensures !Snug(env.c, env.g, env.l) ==> exists bs :: |bs| == env.g && Unwritten(T, s.root, env.l, bs, junk)
  {
    hide Num, Be, Owned, Decodes, Rejects, AllDone, Links, Padded, Cap, InCodeOrder, First, Snug, SnugUpTo, Settled;
    hide Path, Open, Tracked, Meets;
    assert LevelOk(T, d.M, env.c, env.g, env.l, s.u, s.x, 0, d.cur);
    if d.hole.None? {
      SnugAtEnd(env.c, env.g, env.l);
      DoneDecodes(T, d.M, env.l, s.root, env.cs, env.c, env.g);
      DoneRejects(T, d.M, env.l, s.root, env.cs, env.c, env.g);
    } else {
      HoleUnwritten(T, d.M, env.g, env.l, d.hole.value, junk);
    }
  }

  // Looking up bs comes to an entry that still holds what memory held.
  ghost predicate Unwritten(T: Tabs, t: int, lb: nat, bs: seq<bool>, junk: (nat, int, nat) -> Huft)
  {
    exists n: nat, q: int, i: nat :: Meets(T, t, lb, bs, q, i) && q in T && i < |T[q].ent|
        && T[q].ent[i] == junk(n, q, i)
  }

  lemma HoleUnwritten(T: Tabs, M: Nodes, g: nat, l: nat, hole: Hole, junk: (nat, int, nat) -> Huft)
    requires Path(T, M, g, l, hole) && Junk(junk, M, hole) && 1 <= l && hole.path[0] in M && M[hole.path[0]].lb == l
    ensures |hole.bs| == g && Unwritten(T, hole.path[0], l, hole.bs, junk)
  {
    hide Num, Path, Meets;
    PathSize(T, M, g, l, hole);
    PathMeets(T, M, g, l, hole, 0);
    PathAt(T, M, g, l, hole, |hole.path| - 1);
    assert hole.bs[Off(l, 0)..] == hole.bs;
    var q := hole.path[|hole.path| - 1];
    var n :| hole.was == junk(n, q, Index(M[q], hole.bs));
    assert Meets(T, hole.path[0], l, hole.bs, q, Index(M[q], hole.bs))
        && T[q].ent[Index(M[q], hole.bs)] == junk(n, q, Index(M[q], hole.bs));
  }

  // inflate.c:365-461: false when memory ran out.
  method BuildTables(store: Store, env: Env, k0: nat) returns (ok: bool, root: int, ghost ts: seq<int>)
    requires store.Valid() && Fixed(env) && Complete(env.c, env.g) && 1 <= k0 <= env.g
    requires forall j :: 1 <= j < k0 ==> env.c[j] == 0
    modifies store, store.heap
    ensures store.Valid()
    ensures ok ==> Owned(old(store.tables), store.tables, old(store.heap.live), store.heap.live, ts) && root == Head(ts)
    ensures ok ==> ts != []
    ensures ok && Snug(env.c, env.g, env.l) ==>
              && Decodes(store.tables, root, env.l, env.cs, env.g)
              && Rejects(store.tables, root, env.l, env.cs, env.g)
    ensures ok && !Snug(env.c, env.g, env.l) ==>
              exists bs :: |bs| == env.g && Unwritten(store.tables, root, env.l, bs, store.junk)
    ensures !ok ==> store.tables == old(store.tables) && store.heap.live == old(store.heap.live)
    ensures store.heap.refusals == old(store.heap.refusals) + if ok then 0 else 1
  {
    hide Inv, Owned, Decodes, Rejects, Allocator.Valid;
    ghost var T0, live0 := store.tables, store.heap.live;
    var k := k0;
    var s := Regs(-1, -(env.l as int), 0, 0, 0, 0, seq(BMAX, _ => 0), seq(BMAX + 1, _ => 0), 0, 0, 0);
    ghost var d := Shadow(seq(k, _ => false), map[], [], None);
    Begin(env, T0, live0, k, s, d.cur);
    while true
      invariant store.Valid() && 1 <= k <= env.g < |env.c| && store.heap.refusals == old(store.heap.refusals)
      invariant Inv(env, T0, live0, store.tables, store.heap.live, s, d, k, 0) && Sourced(store.junk, d)
      decreases env.g - k
    {
      ok, s, d := PlaceLength(store, env, s, k, d, T0, live0);
      if !ok { return false, 0, []; }
      if k == env.g { break; }
      LengthDone(env, T0, live0, store.tables, store.heap.live, s, d, k);
      d := d.(cur := d.cur + [false]);
      k := k + 1;
    }
    Finished(env, T0, live0, store.tables, store.heap.live, s, d, store.junk);
    return true, s.root, d.ts;
  }

  // ---- huft_build ----

  lemma {:induction false} LongestBounds(b: seq<nat>, i: nat)
    requires i < |b|
    ensures b[i] <= Longest(b)
  {
    if i < |b| - 1 { LongestBounds(b[..|b| - 1], i); }
  }

  lemma {:induction false} LongestUsed(b: seq<nat>)
    ensures Longest(b) > 0 ==> Count(b, Longest(b)) > 0
  {
    if b != [] { LongestUsed(b[..|b| - 1]); }
  }

  // The counts of a set, the last one filled up so that the set is complete.
  ghost function FullCounts(b: seq<nat>): (c: seq<nat>)
    requires Longest(b) <= BMAX
    ensures |c| == BMAX + 1
  {
    var c, g := Counts(b), Longest(b);
    c[g := if First(c, g) <= Pow2(g) then Pow2(g) - First(c, g) else 0]
  }

  // huft_build's choice of table sizes is right for lookups of l bits: no table below the first
  // is wider than that.
  ghost predicate SnugSet(b: seq<nat>, l: nat)
  {
    0 < Longest(b) <= BMAX && Snug(FullCounts(b), Longest(b), l)
  }

  // Some string that starts with a code leads to an entry that was never written.
  ghost predicate Spoiled(T: Tabs, t: int, lb: nat, lens: seq<nat>, g: nat, junk: (nat, int, nat) -> Huft)
  {
    exists sym: nat, bs :: |bs| == g && StartsWith(lens, sym, bs) && Unwritten(T, t, lb, bs, junk)
  }

  // Every string of a complete set starts with a code.
  lemma SomeCode(b: seq<nat>, g: nat, bs: seq<bool>) returns (sym: nat)
    requires Complete(Counts(b), g) && |bs| == g <= BMAX
    ensures StartsWith(b, sym, bs)
  {
    hide Be, CodeVal, Complete;
    sym := CompleteDecodes(b, g, bs, 0);
    assert bs[0..b[sym]] == bs[..b[sym]];
  }

  lemma SpoiledBy(T: Tabs, t: int, lb: nat, b: seq<nat>, g: nat, junk: (nat, int, nat) -> Huft)
    requires Complete(Counts(b), g) && g <= BMAX
    requires exists bs :: |bs| == g && Unwritten(T, t, lb, bs, junk)
    ensures Spoiled(T, t, lb, b, g, junk)
  {
    hide Unwritten, StartsWith, Complete;
    var bs :| |bs| == g && Unwritten(T, t, lb, bs, junk);
    var sym := SomeCode(b, g, bs);
  }

  // If what the memory held there does not happen to be right, the symbol is not found.
  lemma SpoiledFails(T: Tabs, t: int, lb: nat, cs: CodeSet, g: nat, sym: nat, bs: seq<bool>, q: int, i: nat)
    requires |bs| == g && StartsWith(cs.lens, sym, bs) && Meets(T, t, lb, bs, q, i)
    requires q in T && i < |T[q].ent| && IsLeaf(T[q].ent[i]) && !Means(cs, sym, T[q].ent[i].e, T[q].ent[i].v)
    ensures !Decodes(T, t, lb, cs, g)
  {
    hide Meets, Lookup, StartsWith;
    MeetsDecides(T, t, lb, bs, q, i);
    FoundIn(T, t, lb, cs, g, sym, bs);
  }

  // The memory holds entries that end a lookup and are right for no symbol.
  ghost predicate Useless(cs: CodeSet, junk: (nat, int, nat) -> Huft)
  {
    forall n: nat, q: int, i: nat :: MeansNothing(cs, junk(n, q, i))
  }

  ghost predicate MeansNothing(cs: CodeSet, r: Huft)
  {
    IsLeaf(r) && forall sym: nat :: sym < |cs.lens| ==> !Means(cs, sym, r.e, r.v)
  }

  lemma SpoiledNeverDecodes(T: Tabs, t: int, lb: nat, cs: CodeSet, g: nat, junk: (nat, int, nat) -> Huft)
    requires Spoiled(T, t, lb, cs.lens, g, junk) && Useless(cs, junk)
    ensures !Decodes(T, t, lb, cs, g)
  {
    hide Meets, Decodes, Means, IsCode;
    var sym: nat, bs :| |bs| == g && StartsWith(cs.lens, sym, bs) && Unwritten(T, t, lb, bs, junk);
    var n: nat, q: int, i: nat :| Meets(T, t, lb, bs, q, i) && q in T && i < |T[q].ent| && T[q].ent[i] == junk(n, q, i);
    assert MeansNothing(cs, junk(n, q, i));
    SpoiledFails(T, t, lb, cs, g, sym, bs, q, i);
  }

  lemma FoundIn(T: Tabs, t: int, lb: nat, cs: CodeSet, g: nat, sym: nat, bs: seq<bool>)
    requires |bs| == g && StartsWith(cs.lens, sym, bs)
    ensures sym < |cs.lens| && (Decodes(T, t, lb, cs, g) ==> Finds(T, t, lb, cs, sym, bs))
  {
  }

  // The lookup bits returned in *m.
  function LookupBits(b: seq<nat>, m: nat): nat
  {
    var k := Shortest(b);
    if m < k then k else if m > Longest(b) then Longest(b) else m
  }

  // The shortest nonzero length in a set, or 0.
  function Shortest(b: seq<nat>): nat
  {
    if b == [] then 0
    else
      var n, m := b[|b| - 1], Shortest(b[..|b| - 1]);
      if n == 0 || (m != 0 && m < n) then m else n
  }

  // The lookup bits lie between the shortest and the longest length in use, and as close to m as that
  // allows.
  ghost predicate Nearest(b: seq<nat>, m: nat, l: nat)
  {
    && (exists i :: 0 <= i < |b| && 0 < b[i] <= l) && (exists i :: 0 <= i < |b| && l <= b[i])
    && (l > m ==> forall i :: 0 <= i < |b| ==> b[i] == 0 || l <= b[i])
    && (l < m ==> forall i :: 0 <= i < |b| ==> b[i] <= l)
  }

  lemma {:induction false} ShortestAttained(b: seq<nat>)
    ensures Shortest(b) > 0 ==> exists i :: 0 <= i < |b| && b[i] == Shortest(b)
    ensures forall i :: 0 <= i < |b| ==> b[i] == 0 || (Shortest(b) > 0 && Shortest(b) <= b[i])
  {
    if b != [] {
      var p, n := b[..|b| - 1], b[|b| - 1];
      ShortestAttained(p);
      if Shortest(b) == n {
        assert b[|b| - 1] == n;
      } else {
        var i :| 0 <= i < |p| && p[i] == Shortest(p);
        assert b[i] == Shortest(b);
      }
      forall i | 0 <= i < |b| ensures b[i] == 0 || (Shortest(b) > 0 && Shortest(b) <= b[i]) {
        if i < |p| { assert p[i] == b[i]; }
      }
    }
  }

  lemma LookupNearest(b: seq<nat>, m: nat)
    requires Longest(b) > 0
    ensures Nearest(b, m, LookupBits(b, m))
  {
    hide Longest, Shortest;
    if b == [] { LongestNone(); }
    LongestAttained(b);
    ShortestAttained(b);
    forall i | 0 <= i < |b| ensures b[i] <= Longest(b) { LongestBounds(b, i); }
    var g :| 0 <= g < |b| && b[g] == Longest(b);
    var k :| 0 <= k < |b| && b[k] == Shortest(b);
    assert 0 < b[k] <= LookupBits(b, m) <= b[g];
  }

  lemma {:induction false} ShortestBounds(b: seq<nat>, k: nat)
    requires 1 <= k && Count(b, k) > 0 && forall j :: 1 <= j < k ==> Count(b, j) == 0
    ensures Shortest(b) == k
  {
    var p, n := b[..|b| - 1], b[|b| - 1];
    assert Count(b, n) > 0;
    assert forall j :: 1 <= j < k ==> Count(p, j) == 0 by {
      forall j | 1 <= j < k ensures Count(p, j) == 0 { assert Count(b, j) == 0; }
    }
    if Count(p, k) > 0 {
      ShortestBounds(p, k);
    } else {
      NoShorter(p, k);
    }
  }

  lemma {:induction false} NoShorter(p: seq<nat>, k: nat)
    requires 1 <= k && forall j :: 1 <= j <= k ==> Count(p, j) == 0
    ensures Shortest(p) == 0 || Shortest(p) > k
  {
    if p != [] {
      var q := p[..|p| - 1];
      forall j | 1 <= j <= k ensures Count(q, j) == 0 { assert Count(p, j) == 0; }
      NoShorter(q, k);
      assert Count(p, p[|p| - 1]) > 0;
    }
  }

  lemma {:induction false} ZeroSet(b: seq<nat>)
    requires forall i :: 0 <= i < |b| ==> b[i] == 0
    ensures Longest(b) == 0 && Kraft(b) == 0 && Shortest(b) == 0
  {
    if b != [] { ZeroSet(b[..|b| - 1]); }
  }

  // The bounds found in the counts are the shortest and longest length of the set.
  lemma BoundsAre(b: seq<nat>, k: nat, g: nat)
    requires forall i :: 0 <= i < |b| ==> b[i] <= BMAX
    requires 1 <= k <= g <= BMAX && Count(b, k) > 0 && Count(b, g) > 0
    requires forall j :: 1 <= j < k || g < j <= BMAX ==> Counts(b)[j] == 0
    ensures Longest(b) == g && Shortest(b) == k
    ensures forall i :: 0 <= i < |b| ==> b[i] <= g
  {
    forall i | 0 <= i < |b| ensures b[i] <= g {
      SomeCounted(b, i);
      assert Counts(b)[b[i]] == Count(b, b[i]);
    }
    forall j | 1 <= j < k ensures Count(b, j) == 0 { assert Counts(b)[j] == 0; }
    LongestUsed(b);
    LongestReached(b, g);
    ShortestBounds(b, k);
    LongestAttained(b);
  }

  lemma {:induction false} LongestReached(b: seq<nat>, g: nat)
    requires Count(b, g) > 0
    ensures g <= Longest(b)
  {
    if b[|b| - 1] != g { LongestReached(b[..|b| - 1], g); }
  }

  lemma {:induction false} LongestAttained(b: seq<nat>)
    ensures b != [] ==> exists i :: 0 <= i < |b| && b[i] == Longest(b)
  {
    if b != [] {
      var p := b[..|b| - 1];
      LongestAttained(p);
      assert p == [] ==> Longest(p) == 0;
      if Longest(b) == b[|b| - 1] {
        assert b[|b| - 1] == Longest(b);
      } else {
        var i :| 0 <= i < |p| && p[i] == Longest(p);
        assert b[i] == Longest(b);
      }
    }
  }

  // The judgement of a set in terms of its lengths.
  lemma Judged(b: seq<nat>)
    ensures Verdict(b) <= 2 && (Verdict(b) == 2 <==> Kraft(b) > Pow2(BMAX))
    ensures Verdict(b) == 1 <==> Kraft(b) < Pow2(BMAX) && exists i :: 0 <= i < |b| && b[i] >= 2
    ensures Longest(b) > 0 <==> exists i :: 0 <= i < |b| && b[i] > 0
  {
    hide Kraft, Longest, Pow2;
    if b != [] { LongestAttained(b); }
    if b == [] { assert Longest(b) == 0 by { LongestNone(); } }
    forall i | 0 <= i < |b| ensures b[i] <= Longest(b) { LongestBounds(b, i); }
  }

  lemma LongestNone()
    ensures Longest([]) == 0
  {
  }

  // The y left over is zero exactly when the set is complete.
  lemma LeftOver(b: seq<nat>, g: nat, y: int)
    requires (forall i :: 0 <= i < |b| ==> b[i] <= g) && 1 <= g <= BMAX && Count(b, g) > 0
    requires NotOver(Counts(b)) && y == Pow2(g) - Used(Counts(b), g)
    ensures y == 0 <==> Kraft(b) == Pow2(BMAX)
    ensures Kraft(b) <= Pow2(BMAX)
  {
    hide Kraft, First, Pow2, Count;
    OverByKraft(b);
    CompleteByKraft(b, g);
  }

  // The counts the loop works with are the filled up ones.
  lemma FilledUp(b: seq<nat>, c: seq<nat>, g: nat, y: nat)
    requires g == Longest(b) && 1 <= g <= BMAX && y == Pow2(g) - Used(Counts(b), g)
             && c == Counts(b)[g := Count(b, g) + y]
    ensures c == FullCounts(b)
    ensures y == 0 ==> c == Counts(b)
  {
    hide Pow2, First, Count;
  }

  lemma {:induction false} BeforeLe(c: seq<nat>, a: nat, b: nat)
    requires a <= b <= |c|
    ensures Before(c, a) <= Before(c, b)
    decreases b
  {
    if a < b { BeforeLe(c, a, b - 1); }
  }

  // inflate.c:276-465.
  method HuftBuild(store: Store, b: seq<nat>, s: nat, d: seq<nat>, e: seq<nat>, m: nat)
    returns (ret: nat, t: int, m': nat, ghost ts: seq<int>)
    requires store.Valid() && 1 <= |b| <= N_MAX && Meaningful(CodeSet(b, s, d, e))
    modifies store, store.heap
    ensures store.Valid()
    ensures ret == Verdict(b) || (ret == 3 && Verdict(b) != 2 && Longest(b) > 0)
    ensures ret <= 3 && (ret == 2 <==> Kraft(b) > Pow2(BMAX))
    ensures ret < 2 ==> (ret == 1 <==> Kraft(b) < Pow2(BMAX) && exists i :: 0 <= i < |b| && b[i] >= 2)
    ensures ret == 3 ==> exists i :: 0 <= i < |b| && b[i] > 0
    ensures store.heap.refusals == old(store.heap.refusals) + if ret == 3 then 1 else 0
    ensures ret >= 2 ==> store.tables == old(store.tables) && store.heap.live == old(store.heap.live)
    ensures ret < 2 ==>
              Owned(old(store.tables), store.tables, old(store.heap.live), store.heap.live, ts) && t == Head(ts)
    ensures ret < 2 ==> m' == LookupBits(b, m) && (Longest(b) == 0 ==> t == 0) && (Longest(b) > 0 ==> ts != [])
    ensures ret < 2 && Longest(b) > 0 ==> Nearest(b, m, m')
    ensures ret < 2 && SnugSet(b, m') ==>
              && Decodes(store.tables, t, m', CodeSet(b, s, d, e), Longest(b))
              && Rejects(store.tables, t, m', CodeSet(b, s, d, e), Longest(b))
    ensures ret == 0 && Longest(b) > 0 && Kraft(b) == Pow2(BMAX) && !SnugSet(b, m') ==>
              Spoiled(store.tables, t, m', b, Longest(b), store.junk)
    ensures ret == 0 && Longest(b) > 0 && Kraft(b) == Pow2(BMAX) && Useless(CodeSet(b, s, d, e), store.junk) ==>
              (Decodes(store.tables, t, m', CodeSet(b, s, d, e), Longest(b)) <==> SnugSet(b, m'))
  {
    hide Kraft, Pow2, Count, Owned, Decodes, Rejects, Snug, Spoiled, Useless, Unwritten, Complete, NotOver;
    hide InCodeOrder, Longest, Shortest, First, Nearest, Allocator.Valid;
    var cs := CodeSet(b, s, d, e);
    Judged(b);
    var c := CountLengths(b);
    AllZero(b);
    if c[0] == |b| {
      ZeroSet(b);
      OwnedNone(store.tables, store.heap.live);
      return 0, 0, 0, [];
    }
    HasCode(b);
    var k, g, l := Bounds(c, m);
    BoundsAre(b, k, g);
    LookupNearest(b, m);
    OverByKraft(b);
    var over, y := CheckKraft(c, k, g);
    if over { return 2, 0, l, []; }
    LeftOver(b, g, y);
    PadComplete(c, g, y);
    var v0 := Uninitialised();
    var v := SortValues(b, c, g, v0);
    c := c[g := c[g] + y];
    var env := Env(cs, c, v, g, l);
    var ok, root, us := BuildTables(store, env, k);
    if !ok { return 3, 0, l, []; }
    FilledUp(b, c, g, y);
    if y == 0 && !Snug(c, g, l) {
      SpoiledBy(store.tables, root, l, b, g, store.junk);
      if Useless(cs, store.junk) { SpoiledNeverDecodes(store.tables, root, l, cs, g, store.junk); }
    }
    return if y != 0 && g != 1 then 1 else 0, root, l, us;
  }

  method Uninitialised() returns (v: seq<nat>)
    ensures |v| == N_MAX
  {
    var a := new nat[N_MAX];
    v := a[..];
  }

  lemma HasCode(b: seq<nat>)
    requires Count(b, 0) != |b| && forall i :: 0 <= i < |b| ==> b[i] <= BMAX
    ensures exists j :: 1 <= j <= BMAX && Counts(b)[j] > 0
  {
    AllZero(b);
    var i :| 0 <= i < |b| && b[i] != 0;
    SomeCounted(b, i);
    assert Counts(b)[b[i]] > 0;
  }
}
