/**
 The sort of mem_sequence.c: a bubble sort of (pointer, label) pairs, in place, by descending
 pointer, for a table of any length.
 */
module MemSort {

  datatype Entry = Entry(ptr: int, str: string)

  // perm lists every position below n once.
  ghost predicate IsPermutation(perm: seq<nat>, n: nat) {
    && |perm| == n
    && (forall i :: 0 <= i < n ==> perm[i] < n)
    && (forall i, j :: 0 <= i < j < n ==> perm[i] != perm[j])
  }

  // now holds the entries of was, arranged by perm.
  ghost predicate Arranged(was: seq<Entry>, now: seq<Entry>, perm: seq<nat>) {
    && IsPermutation(perm, |was|) && |now| == |was|
    && forall i :: 0 <= i < |now| ==> now[i] == was[perm[i]]
  }

  // Entries that have changed places have strictly descending pointers, so that entries with
  // equal pointers are in their original order.
  ghost predicate Stable(now: seq<Entry>, perm: seq<nat>) {
    && |perm| == |now|
    && forall i, j :: 0 <= i < j < |now| && perm[j] < perm[i] ==> now[i].ptr > now[j].ptr
  }

  ghost predicate Descending(now: seq<Entry>) {
    forall i, j :: 0 <= i < j < |now| ==> now[i].ptr >= now[j].ptr
  }

  // From position j on everything is in its final place.
  ghost predicate SettledFrom(now: seq<Entry>, j: nat) {
    forall a, b :: 0 <= a < b < |now| && j <= b ==> now[a].ptr >= now[b].ptr
  }

  function Swap<T>(s: seq<T>, i: nat): seq<T>
    requires i + 1 < |s|
  {
    s[i := s[i + 1]][i + 1 := s[i]]
  }

  lemma SwapArranged(was: seq<Entry>, now: seq<Entry>, perm: seq<nat>, i: nat)
    requires Arranged(was, now, perm) && Stable(now, perm) && i + 1 < |now| && now[i].ptr < now[i + 1].ptr
    ensures Arranged(was, Swap(now, i), Swap(perm, i)) && Stable(Swap(now, i), Swap(perm, i))
  {
  }

  lemma SwapSettled(now: seq<Entry>, i: nat, j: nat)
    requires SettledFrom(now, j) && i + 1 < j <= |now|
    ensures SettledFrom(Swap(now, i), j)
  {
  }

  method MemXchg(a: array<Entry>, i: nat, k: nat)
    requires i < a.Length && k < a.Length
    modifies a
    ensures a[..] == old(a[..])[i := old(a[k])][k := old(a[i])]
  {
    var tmp := a[i];
    a[i] := a[k];
    a[k] := tmp;
  }

  // The table ends in descending order, as a stable rearrangement of what it was.
  method SortTable(a: array<Entry>) returns (ghost perm: seq<nat>)
    modifies a
    ensures Arranged(old(a[..]), a[..], perm) && Stable(a[..], perm) && Descending(a[..])
  {
    ghost var was := a[..];
    perm := seq(a.Length, (i: nat) => i);
    var j := a.Length;
    while j > 0
      invariant 0 <= j <= a.Length
      invariant Arranged(was, a[..], perm) && Stable(a[..], perm) && SettledFrom(a[..], j)
    {
      j := j - 1;
      perm := Bubble(a, j, was, perm);
    }
  }

  // One pass: the least pointer of a[..j + 1] ends at position j.
  method Bubble(a: array<Entry>, j: nat, ghost was: seq<Entry>, ghost perm: seq<nat>) returns (ghost perm': seq<nat>)
    requires j < a.Length && Arranged(was, a[..], perm) && Stable(a[..], perm) && SettledFrom(a[..], j + 1)
    modifies a
    ensures Arranged(was, a[..], perm') && Stable(a[..], perm') && SettledFrom(a[..], j)
  {
    perm' := perm;
    for i := 0 to j
      invariant Arranged(was, a[..], perm') && Stable(a[..], perm') && SettledFrom(a[..], j + 1)
      invariant forall b :: 0 <= b < i ==> a[b].ptr >= a[i].ptr
    {
      if a[i].ptr < a[i + 1].ptr {
        SwapArranged(was, a[..], perm', i);
        SwapSettled(a[..], i, j + 1);
        perm' := Swap(perm', i);
        MemXchg(a, i, i + 1);
      }
    }
    assert forall b :: 0 <= b < j ==> a[..][b].ptr >= a[..][j].ptr;
  }

  // ---------- the result is determined ----------

  // The order the sort establishes: by descending pointer, then by original position.
  predicate Before(was: seq<Entry>, p: nat, q: nat)
    requires p < |was| && q < |was|
  {
    was[p].ptr > was[q].ptr || (was[p].ptr == was[q].ptr && p < q)
  }

  ghost predicate Ordered(was: seq<Entry>, perm: seq<nat>) {
    && (forall i :: 0 <= i < |perm| ==> perm[i] < |was|)
    && (forall i, j :: 0 <= i < j < |perm| ==> Before(was, perm[i], perm[j]))
  }

  lemma SortedIsOrdered(was: seq<Entry>, now: seq<Entry>, perm: seq<nat>)
    requires Arranged(was, now, perm) && Stable(now, perm) && Descending(now)
    ensures Ordered(was, perm)
  {
    forall i, j | 0 <= i < j < |perm| ensures Before(was, perm[i], perm[j]) {
      assert now[i] == was[perm[i]] && now[j] == was[perm[j]];
    }
  }

  lemma {:induction false} OrderedUnique(was: seq<Entry>, p: seq<nat>, q: seq<nat>)
    requires Ordered(was, p) && Ordered(was, q) && |p| == |q|
    requires forall x :: x in p <==> x in q
    ensures p == q
  {
    if p != [] {
      SameFirst(was, p, q);
      assert p == [p[0]] + p[1..] && q == [q[0]] + q[1..];
      forall x ensures x in p[1..] <==> x in q[1..] {
        NotAgain(was, p);
        NotAgain(was, q);
        assert x in p <==> x == p[0] || x in p[1..];
        assert x in q <==> x == q[0] || x in q[1..];
      }
      OrderedUnique(was, p[1..], q[1..]);
    }
  }

  lemma NotAgain(was: seq<Entry>, p: seq<nat>)
    requires Ordered(was, p) && p != []
    ensures p[0] !in p[1..]
  {
    forall i | 0 <= i < |p| - 1 ensures p[1..][i] != p[0] {
      assert Before(was, p[0], p[i + 1]);
    }
  }

  lemma SameFirst(was: seq<Entry>, p: seq<nat>, q: seq<nat>)
    requires Ordered(was, p) && Ordered(was, q) && p != [] && q != []
    requires forall x :: x in p <==> x in q
    ensures p[0] == q[0]
  {
    FirstIsLeast(was, p, q[0]);
    FirstIsLeast(was, q, p[0]);
  }

  lemma FirstIsLeast(was: seq<Entry>, p: seq<nat>, x: nat)
    requires Ordered(was, p) && x in p
    ensures x == p[0] || Before(was, p[0], x)
  {
    var i :| 0 <= i < |p| && p[i] == x;
    assert i > 0 ==> Before(was, p[0], p[i]);
  }

  function UpTo(n: nat): (s: set<nat>)
    ensures |s| == n && forall x: nat :: x in s <==> x < n
  {
    if n == 0 then {} else UpTo(n - 1) + {n - 1}
  }

  lemma {:induction false} Values(perm: seq<nat>, n: nat) returns (values: set<nat>)
    requires n <= |perm| && forall i, j :: 0 <= i < j < n ==> perm[i] != perm[j]
    ensures |values| == n && forall x :: x in values <==> x in perm[..n]
  {
    if n == 0 {
      values := {};
    } else {
      values := Values(perm, n - 1);
      assert perm[..n] == perm[..n - 1] + [perm[n - 1]];
      values := values + {perm[n - 1]};
    }
  }

  lemma {:induction false} SubsetOfSameSize(s: set<nat>, t: set<nat>)
    requires s <= t && |s| == |t|
    ensures s == t
  {
    if x :| x in t && x !in s {
      Smaller(s, t - {x});
    }
  }

  lemma {:induction false} Smaller(s: set<nat>, t: set<nat>)
    requires s <= t
    ensures |s| <= |t|
  {
    if x :| x in s {
      Smaller(s - {x}, t - {x});
    }
  }

  lemma PermutationHasAll(perm: seq<nat>, n: nat, x: nat)
    requires IsPermutation(perm, n) && x < n
    ensures x in perm
  {
    var values := Values(perm, n);
    assert perm[..n] == perm;
    SubsetOfSameSize(values, UpTo(n));
  }

  // Any two stable descending arrangements of the same table are the same.
  lemma SortIsUnique(was: seq<Entry>, now: seq<Entry>, perm: seq<nat>, now': seq<Entry>, perm': seq<nat>)
    requires Arranged(was, now, perm) && Stable(now, perm) && Descending(now)
    requires Arranged(was, now', perm') && Stable(now', perm') && Descending(now')
    ensures perm == perm' && now == now'
  {
    SortedIsOrdered(was, now, perm);
    SortedIsOrdered(was, now', perm');
    forall x ensures x in perm <==> x in perm' {
      if x in perm {
        PermutationHasAll(perm', |was|, x);
      }
      if x in perm' {
        PermutationHasAll(perm, |was|, x);
      }
    }
    OrderedUnique(was, perm, perm');
  }
}
