// Indices of a ring of n descriptors.
module RingIndex {

  function Succ(i: nat, n: nat): nat { if i + 1 == n then 0 else i + 1 }

  // Steps from s forward to i.
  function Dist(i: nat, s: nat, n: nat): nat
    requires i < n && s < n
  {
    if i >= s then i - s else i + n - s
  }

  lemma SuccDist(i: nat, s: nat, n: nat)
    requires i < n && s < n
    ensures Succ(s, n) < n && Succ(i, n) < n && Dist(i, s, n) < n
    ensures i != s ==> Dist(i, Succ(s, n), n) == Dist(i, s, n) - 1
    ensures Dist(s, Succ(s, n), n) == n - 1
    ensures Dist(i, s, n) < n - 1 ==> Dist(Succ(i, n), s, n) == Dist(i, s, n) + 1
    ensures Dist(i, s, n) == n - 1 ==> Succ(i, n) == s
    ensures Dist(i, s, n) == 0 <==> i == s
  {
  }

  lemma DistUnique(i: nat, j: nat, s: nat, n: nat)
    requires i < n && j < n && s < n && Dist(i, s, n) == Dist(j, s, n)
    ensures i == j
  {
  }
}
