// The decoding tables of loader/src/inflate.c in the heap: allocation, the chain
// through their dummy first entries, and huft_free.
module HuftStore {
  import opened HeapLayout
  import opened Alloc
  import opened Tables

  const HUFT := 8   // sizeof(struct huft)

  // ts are the tables allocated since T0 and live0, chained in order of allocation.
  ghost predicate Owned(T0: Tabs, T: Tabs, live0: map<int, Block>, live: map<int, Block>, ts: seq<int>)
  {
    && Distinct(ts)
    && OwnTables(T0, T, ts)
    && Chained(T, ts)
    && OwnBlocks(live0, live, ts)
  }

  ghost predicate Distinct(ts: seq<int>)
  {
    forall i, j :: 0 <= i < j < |ts| ==> ts[i] != ts[j]
  }

  ghost predicate OwnTables(T0: Tabs, T: Tabs, ts: seq<int>)
  {
    && T.Keys == T0.Keys + Elements(ts)
    && T0.Keys !! Elements(ts)
    && (forall t :: t in T0 ==> T[t] == T0[t])
  }

  ghost predicate OwnBlocks(live0: map<int, Block>, live: map<int, Block>, ts: seq<int>)
  {
    && live.Keys == live0.Keys + Blocks(ts)
    && live0.Keys !! Blocks(ts)
    && (forall p :: p in live0 ==> live[p] == live0[p])
  }

  ghost predicate Chained(T: Tabs, ts: seq<int>)
  {
    forall i {:trigger ts[i]} :: 0 <= i < |ts| ==> ts[i] != 0 && ts[i] in T && T[ts[i]].link == Successor(ts, i)
  }

  ghost function Elements(ts: seq<int>): set<int>
  {
    if ts == [] then {} else {ts[0]} + Elements(ts[1..])
  }

  ghost function Blocks(ts: seq<int>): set<int>
  {
    if ts == [] then {} else {ts[0] - HUFT} + Blocks(ts[1..])
  }

  lemma {:induction false} ElementsMember(ts: seq<int>, t: int)
    ensures t in Elements(ts) <==> t in ts
    ensures t - HUFT in Blocks(ts) <==> t in ts
  {
    if ts != [] {
      ElementsMember(ts[1..], t);
      assert ts == [ts[0]] + ts[1..];
    }
  }

  lemma {:induction false} ElementsAppend(ts: seq<int>, q: int)
    ensures Elements(ts + [q]) == Elements(ts) + {q}
    ensures Blocks(ts + [q]) == Blocks(ts) + {q - HUFT}
  {
    if ts == [] {
      assert ts + [q] == [q] && [q][1..] == [];
    } else {
      assert (ts + [q])[1..] == ts[1..] + [q];
      ElementsAppend(ts[1..], q);
    }
  }

  function Successor(ts: seq<int>, i: nat): int
    requires i < |ts|
  {
    if i + 1 < |ts| then ts[i + 1] else 0
  }

  function Head(ts: seq<int>): int { if ts == [] then 0 else ts[0] }

  lemma OwnedNone(T: Tabs, live: map<int, Block>)
    ensures Owned(T, T, live, live, [])
  {
  }

  lemma SameMap<V>(a: map<int, V>, b: map<int, V>)
    requires a.Keys == b.Keys && forall k :: k in b ==> a[k] == b[k]
    ensures a == b
  {
    forall k | k in a ensures k in b && a[k] == b[k] { assert k in b.Keys; }
  }

  lemma OwnedFacts(T0: Tabs, T: Tabs, live0: map<int, Block>, live: map<int, Block>, ts: seq<int>)
    requires Owned(T0, T, live0, live, ts)
    ensures ts != [] ==> ts[0] != 0 && ts[0] in T && ts[0] - HUFT in live
    ensures ts == [] ==> T == T0 && live == live0
    ensures Head(ts) == 0 ==> ts == []
  {
    if ts == [] {
      SameMap(T, T0);
      SameMap(live, live0);
    }
  }

  lemma FirstApart(ts: seq<int>)
    requires Distinct(ts) && ts != []
    ensures ts[0] !in Elements(ts[1..]) && ts[0] - HUFT !in Blocks(ts[1..]) && Distinct(ts[1..])
  {
    var us := ts[1..];
    ElementsMember(us, ts[0]);
    forall i | 0 <= i < |us| ensures us[i] != ts[0] { assert us[i] == ts[i + 1]; }
  }

  // Giving back the first table of the chain.
  lemma OwnedTail(T0: Tabs, T: Tabs, live0: map<int, Block>, live: map<int, Block>, ts: seq<int>)
    requires Owned(T0, T, live0, live, ts) && ts != []
    ensures Owned(T0, T - {ts[0]}, live0, live - {ts[0] - HUFT}, ts[1..])
    ensures ts[0] in T && T[ts[0]].link == Head(ts[1..])
  {
    FirstApart(ts);
    ChainTail(T, ts);
  }

  lemma ChainTail(T: Tabs, ts: seq<int>)
    requires Chained(T, ts) && Distinct(ts) && ts != []
    ensures Chained(T - {ts[0]}, ts[1..])
  {
    var us, R := ts[1..], T - {ts[0]};
    forall i {:trigger us[i]} | 0 <= i < |us| ensures us[i] != 0 && us[i] in R && R[us[i]].link == Successor(us, i) {
      assert us[i] == ts[i + 1];
    }
  }

  // A new table joins the end of the chain.
  lemma OwnedGrow(T0: Tabs, T: Tabs, live0: map<int, Block>, live: map<int, Block>, ts: seq<int>, q: int, b: Block,
                  T': Tabs)
    requires Owned(T0, T, live0, live, ts) && q !in T && q - HUFT !in live && q != 0
    requires T'.Keys == T.Keys + {q} && T'[q].link == 0
    requires forall t :: t in T0 ==> T'[t] == T[t]
    requires forall i {:trigger ts[i]} :: 0 <= i < |ts| && ts[i] in T ==>
             T'[ts[i]].link == if i + 1 == |ts| then q else T[ts[i]].link
    ensures Owned(T0, T', live0, live[q - HUFT := b], ts + [q])
  {
    ElementsAppend(ts, q);
    ElementsMember(ts, q);
    assert Distinct(ts + [q]);
    ChainGrow(T, ts, q, T');
  }

  lemma ChainGrow(T: Tabs, ts: seq<int>, q: int, T': Tabs)
    requires Chained(T, ts) && q != 0 && T'.Keys == T.Keys + {q} && T'[q].link == 0
    requires forall i {:trigger ts[i]} :: 0 <= i < |ts| && ts[i] in T ==>
             T'[ts[i]].link == if i + 1 == |ts| then q else T[ts[i]].link
    ensures Chained(T', ts + [q])
  {
    var us := ts + [q];
    forall i {:trigger us[i]} | 0 <= i < |us| ensures us[i] != 0 && us[i] in T' && T'[us[i]].link == Successor(us, i) {
      if i < |ts| { assert us[i] == ts[i]; }
    }
  }

  // Entries of new tables may change.
  lemma OwnedWrite(T0: Tabs, T: Tabs, live0: map<int, Block>, live: map<int, Block>, ts: seq<int>, q: int,
                   ent: seq<Huft>)
    requires Owned(T0, T, live0, live, ts) && q in ts
    ensures q in T && Owned(T0, T[q := T[q].(ent := ent)], live0, live, ts)
  {
    hide Chained, OwnBlocks, Distinct, Elements;
    ElementsMember(ts, q);
    ChainWrite(T, ts, q, ent);
  }

  lemma ChainWrite(T: Tabs, ts: seq<int>, q: int, ent: seq<Huft>)
    requires Chained(T, ts) && q in T
    ensures Chained(T[q := T[q].(ent := ent)], ts)
  {
    var T' := T[q := T[q].(ent := ent)];
    forall i {:trigger ts[i]} | 0 <= i < |ts| ensures ts[i] != 0 && ts[i] in T' && T'[ts[i]].link == Successor(ts, i) {
    }
  }

  // Of two chains built one after the other, the first can be freed first.
  lemma OwnedSwap(T0: Tabs, T1: Tabs, T2: Tabs, live0: map<int, Block>, live1: map<int, Block>, live2: map<int, Block>,
                  us: seq<int>, bs: seq<int>)
    requires Owned(T0, T1, live0, live1, us) && Owned(T1, T2, live1, live2, bs)
    ensures Owned(T2 - Elements(us), T2, live2 - Blocks(us), live2, us)
    ensures Owned(T0, T2 - Elements(us), live0, live2 - Blocks(us), bs)
  {
    var T, live := T2 - Elements(us), live2 - Blocks(us);
    assert Chained(T2, us);
    ChainKept(T2, T, bs, Elements(us));
    assert T.Keys == T0.Keys + Elements(bs);
    assert live.Keys == live0.Keys + Blocks(bs);
  }

  lemma ChainKept(T: Tabs, T': Tabs, ts: seq<int>, drop: set<int>)
    requires Chained(T, ts) && T' == T - drop && Elements(ts) !! drop
    ensures Chained(T', ts)
  {
    forall i {:trigger ts[i]} | 0 <= i < |ts| ensures ts[i] != 0 && ts[i] in T' && T'[ts[i]].link == Successor(ts, i) {
      ElementsMember(ts, ts[i]);
    }
  }

  class Store {
    const heap: Allocator
    const junk: (nat, int, nat) -> Huft     // what memory holds: by allocation, address and entry
    var tables: Tabs
    var serial: nat                         // tables allocated so far

    ghost predicate Valid()
      reads this, heap
    {
      && heap.Valid()
      && (forall t :: t in tables ==> t - HUFT in heap.live)
    }

    constructor (heap: Allocator, junk: (nat, int, nat) -> Huft)
      requires heap.Valid()
      ensures Valid() && this.heap == heap && this.junk == junk && tables == map[]
    {
      this.heap, this.junk := heap, junk;
      tables, serial := map[], 0;
    }

    // xmalloc of z + 1 entries; the entries are whatever the memory held.
    method NewTable(z: nat) returns (q: int)
      requires Valid() && 1 <= z <= 65536
      modifies this, heap
      ensures Valid()
      ensures heap.refusals == old(heap.refusals) + if q == 0 then 1 else 0
      ensures q == 0 ==> tables == old(tables) && heap.live == old(heap.live) && heap.layout == old(heap.layout)
      ensures q != 0 ==>
                && q !in old(tables) && q - HUFT !in old(heap.live)
                && q - HUFT in heap.live && heap.live == old(heap.live)[q - HUFT := heap.live[q - HUFT]]
                && q in tables && |tables[q].ent| == z && tables[q].link == 0
                && tables == old(tables)[q := tables[q]]
                && UNIT * (heap.live[q - HUFT].size - 1) >= (z + 1) * HUFT     // the table lies in its block
                && forall i :: 0 <= i < z ==> tables[q].ent[i] == junk(old(serial), q, i)
    {
      hide Allocator.Valid, FirstFit, Take, Taken;
      var p := heap.Malloc((z + 1) * HUFT);
      if p == 0 { return 0; }
      heap.LiveHasHeader(p);
      q := p + HUFT;
      var n, q' := serial, q;
      tables := tables[q := Table(0, seq(z, i requires 0 <= i => junk(n, q', i)))];
      serial := serial + 1;
    }

    // huft_free: follow the links kept in the dummy first entries.
    method HuftFree(t: int, ghost ts: seq<int>, ghost T0: Tabs, ghost live0: map<int, Block>)
      requires Valid() && t == Head(ts) && Owned(T0, tables, live0, heap.live, ts)
      modifies this, heap
      ensures Valid() && tables == T0 && heap.live == live0 && heap.refusals == old(heap.refusals)
    {
      hide Allocator.Valid, Freed, Owned;
      OwnedFacts(T0, tables, live0, heap.live, ts);
      var p := t;
      ghost var us := ts;
      while p != 0
        invariant Valid() && p == Head(us) && Owned(T0, tables, live0, heap.live, us)
                  && heap.refusals == old(heap.refusals)
        decreases |us|
      {
        OwnedFacts(T0, tables, live0, heap.live, us);
        OwnedTail(T0, tables, live0, heap.live, us);
        var q := tables[p].link;
        heap.LiveHasHeader(p - HUFT);
        heap.Free(p - HUFT);
        tables := tables - {p};
        p, us := q, us[1..];
      }
      OwnedFacts(T0, tables, live0, heap.live, us);
    }
  }
}
