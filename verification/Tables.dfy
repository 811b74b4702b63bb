// Multi-level decoding tables as huft_build of loader/src/inflate.c lays them out,
// and what looking a bit string up in them means.
module Tables {
  import opened Bits
  import opened Canonical

  // struct huft: e is an operation or a number of extra bits, b the bits to drop,
  // v a value or the address of the next table.
  datatype Huft = Huft(e: nat, b: nat, v: int)

  // A table and the link kept in its dummy first entry.
  datatype Table = Table(link: int, ent: seq<Huft>)

  type Tabs = map<int, Table>

  // e == 99 marks an unused code; 16 < e otherwise is a pointer to a table of e - 16 bits.
  predicate IsLeaf(r: Huft) { r.e <= 16 || r.e == 99 }

  // What a lookup arrives at, and how many bits it drops in all.
  datatype Leaf = Leaf(e: nat, v: int, used: nat)

  // The walk of inflate_codes through the tables, from a table indexed by lb bits.
  function Lookup(T: Tabs, t: int, lb: nat, bs: seq<bool>): Option<Leaf>
    decreases |bs|
  {
    if t !in T || lb > |bs| || Num(bs[..lb]) >= |T[t].ent| then None
    else
      var r := T[t].ent[Num(bs[..lb])];
      if r.b > lb then None
      else if IsLeaf(r) then Some(Leaf(r.e, r.v, r.b))
      else if r.b == 0 then None
      else
        match Lookup(T, r.v, r.e - 16, bs[r.b..])
        case None => None
        case Some(x) => Some(Leaf(x.e, x.v, x.used + r.b))
  }

  // ---- walks that know where they are ----

  // A table serves the strings that start with prefix; it is indexed by lb bits and
  // holds Pow2(tb) entries.
  datatype Node = Node(prefix: seq<bool>, lb: nat, tb: nat)

  type Nodes = map<int, Node>

  function Index(n: Node, bs: seq<bool>): nat
    requires |n.prefix| + n.lb <= |bs|
  {
    Num(bs[|n.prefix|..|n.prefix| + n.lb])
  }

  predicate Serves(n: Node, bs: seq<bool>)
  {
    |n.prefix| + n.lb <= |bs| && n.prefix == bs[..|n.prefix|]
  }

  // Lookup with every step checked against the nodes; tables below the first are l bits apart.
  function Trace(T: Tabs, M: Nodes, l: nat, t: int, bs: seq<bool>, w: nat): Option<Leaf>
    requires w <= |bs|
    decreases |bs| - w
  {
    if t !in T || t !in M || |M[t].prefix| != w || !Serves(M[t], bs) || Index(M[t], bs) >= |T[t].ent| then None
    else
      var r := T[t].ent[Index(M[t], bs)];
      if r.b > M[t].lb then None
      else if IsLeaf(r) then Some(Leaf(r.e, r.v, w + r.b))
      else if r.b != l || l == 0 || w + l > |bs| || r.v !in M || M[r.v].lb != r.e - 16 then None
      else Trace(T, M, l, r.v, bs, w + l)
  }

  lemma DropTake(bs: seq<bool>, w: nat, n: nat)
    requires w + n <= |bs|
    ensures bs[w..][..n] == bs[w..w + n]
  {
  }

  lemma DropDrop(bs: seq<bool>, w: nat, n: nat)
    requires w + n <= |bs|
    ensures bs[w..][n..] == bs[w + n..]
  {
  }

  lemma {:induction false} TraceIsLookup(T: Tabs, M: Nodes, l: nat, t: int, bs: seq<bool>, w: nat)
    requires w <= |bs| && Trace(T, M, l, t, bs, w).Some? && Trace(T, M, l, t, bs, w).value.used >= w
    ensures t in M
    ensures var x := Trace(T, M, l, t, bs, w).value;
            Lookup(T, t, M[t].lb, bs[w..]) == Some(Leaf(x.e, x.v, x.used - w))
    decreases |bs| - w
  {
    hide Num;
    var n := M[t];
    DropTake(bs, w, n.lb);
    var r := T[t].ent[Index(n, bs)];
    if !IsLeaf(r) {
      DropDrop(bs, w, l);
      TraceUses(T, M, l, r.v, bs, w + l);
      TraceIsLookup(T, M, l, r.v, bs, w + l);
    }
  }

  lemma {:induction false} TraceUses(T: Tabs, M: Nodes, l: nat, t: int, bs: seq<bool>, w: nat)
    requires w <= |bs| && Trace(T, M, l, t, bs, w).Some?
    ensures Trace(T, M, l, t, bs, w).value.used >= w
    decreases |bs| - w
  {
    var r := T[t].ent[Index(M[t], bs)];
    if !IsLeaf(r) { TraceUses(T, M, l, r.v, bs, w + l); }
  }

  // T' and M' extend T and M, and agree with them wherever bs looks.
  ghost predicate SameFor(T: Tabs, M: Nodes, T': Tabs, M': Nodes, bs: seq<bool>)
  {
    forall t :: t in T && t in M ==> SameAt(T, M, T', M', t, bs)
  }

  ghost predicate SameAt(T: Tabs, M: Nodes, T': Tabs, M': Nodes, t: int, bs: seq<bool>)
    requires t in T && t in M
  {
    && t in T' && t in M' && M'[t] == M[t] && |T'[t].ent| == |T[t].ent|
    && (Serves(M[t], bs) && Index(M[t], bs) < |T[t].ent| ==>
          T'[t].ent[Index(M[t], bs)] == T[t].ent[Index(M[t], bs)])
  }

  lemma {:induction false} TraceFrame(T: Tabs, M: Nodes, T': Tabs, M': Nodes, l: nat, t: int, bs: seq<bool>, w: nat)
    requires w <= |bs| && Trace(T, M, l, t, bs, w).Some?
    requires SameFor(T, M, T', M', bs) && M.Keys <= M'.Keys && (forall n :: n in M ==> M'[n] == M[n])
    ensures Trace(T', M', l, t, bs, w) == Trace(T, M, l, t, bs, w)
    decreases |bs| - w
  {
    hide Num;
    assert SameAt(T, M, T', M', t, bs);
    var r := T[t].ent[Index(M[t], bs)];
    if !IsLeaf(r) { TraceFrame(T, M, T', M', l, r.v, bs, w + l); }
  }

  // ---- the backwards increment ----

  // The next code of the same length.
  function Inc(s: seq<bool>): (r: seq<bool>)
    ensures |r| == |s|
  {
    if s == [] then []
    else if s[|s| - 1] then Inc(s[..|s| - 1]) + [false]
    else s[..|s| - 1] + [true]
  }

  lemma {:induction false} IncBe(s: seq<bool>)
    requires Be(s) + 1 < Pow2(|s|)
    ensures Be(Inc(s)) == Be(s) + 1
  {
    if s != [] {
      var p := s[..|s| - 1];
      if s[|s| - 1] {
        IncBe(p);
        assert Inc(s)[..|s| - 1] == Inc(p);
      } else {
        assert Inc(s)[..|s| - 1] == p;
      }
    }
  }

  // An increment that changes the first w bits clears all the others.
  lemma {:induction false} IncCarry(s: seq<bool>, w: nat)
    requires w <= |s|
    ensures Inc(s)[..w] == s[..w] || forall j :: w <= j < |s| ==> !Inc(s)[j]
  {
    if s != [] && w < |s| {
      var p := s[..|s| - 1];
      if s[|s| - 1] {
        IncCarry(p, w);
        assert Inc(s)[..w] == Inc(p)[..w] && s[..w] == p[..w];
      } else {
        assert Inc(s)[..w] == s[..w];
      }
    }
  }

  lemma NumPad(s: seq<bool>)
    ensures Num(s + [false]) == Num(s)
  {
    NumAppend(s, [false]);
    assert [false][1..] == [];
  }

  lemma NumLast(s: seq<bool>)
    requires s != []
    ensures Num(s) == Num(s[..|s| - 1]) + Pow2(|s| - 1) * BitVal(s[|s| - 1])
  {
    var p, q := s[..|s| - 1], [s[|s| - 1]];
    assert s == p + q && q[1..] == [];
    NumAppend(p, q);
    assert Num(q) == BitVal(s[|s| - 1]);
  }

  // The loop at inflate.c:449-452 on the bit-reversed code.
  method BackIncrement(i0: nat, k: nat, ghost s: seq<bool>) returns (i: nat)
    requires |s| == k >= 1 && i0 == Num(s)
    ensures i == Num(Inc(s))
  {
    hide Num;
    i := i0;
    var j := Pow2(k - 1);
    ghost var p := k;
    assert s[..k] == s;
    while j > 0 && i / j % 2 == 1
      invariant 0 <= p <= k && j == if p == 0 then 0 else Pow2(p - 1)
      invariant i == Num(s[..p])
      invariant Num(Inc(s)) == Num(Inc(s[..p]))
      decreases p
    {
      BitTest(s[..p], i, j);
      assert s[..p][..p - 1] == s[..p - 1];
      NumPad(Inc(s[..p - 1]));
      i := i - j;
      j := j / 2;
      p := p - 1;
    }
    if p > 0 {
      BitTest(s[..p], i, j);
      NumLast(Inc(s[..p]));
      assert Inc(s[..p])[..p - 1] == s[..p][..p - 1];
    }
    i := i + j;
  }

  lemma BitTest(s: seq<bool>, i: nat, j: nat)
    requires s != [] && i == Num(s) && j == Pow2(|s| - 1)
    ensures i / j % 2 == 1 <==> s[|s| - 1]
    ensures i == Num(s[..|s| - 1]) + (if s[|s| - 1] then j else 0)
  {
    NumLast(s);
    NumBound(s[..|s| - 1]);
    DivModUnique(i, j, BitVal(s[|s| - 1]), Num(s[..|s| - 1]));
  }
}
