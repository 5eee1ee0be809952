/** Reordering the dataset by a stored permutation tensor:
    `dataset = dataset[perm]`. The permutation itself comes from a file and
    is an input here. */
module Permutation {
  import opened Outcomes
  import opened Sequences

  /** Every index of `perm` points inside `data`. */
  predicate InRange(perm: seq<nat>, n: nat)
  {
    forall k :: 0 <= k < |perm| ==> perm[k] < n
  }

  /** `perm` lists each of 0 .. n-1 once, as `torch.randperm(n)` does. */
  predicate IsPermutation(perm: seq<nat>, n: nat)
  {
    |perm| == n && InRange(perm, n) && Distinct(perm)
  }

  /** `dataset[perm]`: item k of the result is item `perm[k]` of the
      dataset; an index past the end raises instead. */
  function Permute<T>(data: seq<T>, perm: seq<nat>): (r: Result<seq<T>>)
    ensures r.Ok? <==> InRange(perm, |data|)
    ensures r.Err? ==> r.error == IndexOutOfRange
    ensures r.Ok? ==>
      |r.value| == |perm| && forall k :: 0 <= k < |perm| ==> r.value[k] == data[perm[k]]
  {
    if InRange(perm, |data|) then
      Ok(seq(|perm|, k requires 0 <= k < |perm| => data[perm[k]]))
    else
      Err(IndexOutOfRange)
  }

  /** The naturals below `b`. */
  function Below(b: nat): (r: set<nat>)
    ensures |r| == b
    ensures forall x: nat :: x in r <==> x < b
  {
    if b == 0 then {} else
      var r := Below(b - 1);
      assert b - 1 !in r;
      r + {b - 1}
  }

  /** The set of values a sequence holds. */
  function Values(s: seq<nat>): (r: set<nat>)
    ensures forall x :: x in r <==> x in s
  {
    if |s| == 0 then {} else
      assert forall x :: x in s <==> x == s[0] || x in s[1..];
      {s[0]} + Values(s[1..])
  }

  /** The values of a duplicate-free index sequence form a set of its length. */
  lemma {:induction false} DistinctCard(s: seq<nat>)
    requires Distinct(s)
    ensures |Values(s)| == |s|
  {
    if |s| > 0 {
      var tail := s[1..];
      assert Distinct(tail);
      DistinctCard(tail);
      assert s[0] !in Values(tail);
    }
  }

  lemma {:induction false} SubsetCard(a: set<nat>, b: set<nat>)
    requires a <= b
    ensures |a| <= |b|
    decreases |b|
  {
    if a != {} {
      var x :| x in a;
      SubsetCard(a - {x}, b - {x});
    }
  }

  /** Pigeonhole: a permutation of 0 .. n-1 hits every value below n. */
  lemma PermutationHits(perm: seq<nat>, n: nat, v: nat)
    requires IsPermutation(perm, n) && v < n
    ensures exists j :: 0 <= j < n && perm[j] == v
  {
    if forall j :: 0 <= j < n ==> perm[j] != v {
      var values := Values(perm);
      DistinctCard(perm);
      assert values <= Below(n) - {v};
      SubsetCard(values, Below(n) - {v});
      assert false;
    }
  }

  /** Striking the position that holds the largest index leaves a
      permutation of the smaller range. */
  lemma RemoveLargest(perm: seq<nat>, n: nat, j: nat)
    requires IsPermutation(perm, n) && j < n && perm[j] == n - 1
    ensures IsPermutation(perm[..j] + perm[j + 1..], n - 1)
  {
    var rest := perm[..j] + perm[j + 1..];
    assert forall k :: 0 <= k < |rest| ==> rest[k] == (if k < j then perm[k] else perm[k + 1]);
    forall k | 0 <= k < n - 1
      ensures rest[k] < n - 1
    {
      var p := if k < j then k else k + 1;
      assert rest[k] == perm[p] && p != j;
    }
  }

  /** Reordering the dataset without its last item by the shortened
      permutation yields the full reordering with position `j` struck out. */
  lemma PermuteRemoved<T>(data: seq<T>, perm: seq<nat>, j: nat)
    requires IsPermutation(perm, |data|) && j < |data| && perm[j] == |data| - 1
    requires IsPermutation(perm[..j] + perm[j + 1..], |data| - 1)
    ensures Permute(data, perm).Ok?
    ensures Permute(data[..|data| - 1], perm[..j] + perm[j + 1..]).Ok?
    ensures Permute(data[..|data| - 1], perm[..j] + perm[j + 1..]).value
         == Permute(data, perm).value[..j] + Permute(data, perm).value[j + 1..]
  {
    var rest := perm[..j] + perm[j + 1..];
    assert forall k :: 0 <= k < |rest| ==> rest[k] == (if k < j then perm[k] else perm[k + 1]);
  }

  /** Reordering by a true permutation neither loses nor duplicates a graph:
      the result holds the same items, each as often as before. */
  lemma {:induction false} PermutePreservesMultiset<T>(data: seq<T>, perm: seq<nat>)
    requires IsPermutation(perm, |data|)
    ensures Permute(data, perm).Ok?
    ensures multiset(Permute(data, perm).value) == multiset(data)
    decreases |data|
  {
    var n := |data|;
    if n > 0 {
      var r := Permute(data, perm).value;
      PermutationHits(perm, n, n - 1);
      var j :| 0 <= j < n && perm[j] == n - 1;
      var rest := perm[..j] + perm[j + 1..];
      var init := data[..n - 1];
      RemoveLargest(perm, n, j);
      PermuteRemoved(data, perm, j);
      PermutePreservesMultiset(init, rest);
      StrikeOne(r, j, data);
    }
  }

  /** Striking position `j` from `r` and the last item from `data` leaves
      equal multisets; if the struck items agree, so do the originals. */
  lemma StrikeOne<T>(r: seq<T>, j: nat, data: seq<T>)
    requires j < |r| && 0 < |data| && r[j] == data[|data| - 1]
    requires multiset(r[..j] + r[j + 1..]) == multiset(data[..|data| - 1])
    ensures multiset(r) == multiset(data)
  {
    var last := data[|data| - 1];
    assert r == r[..j] + [last] + r[j + 1..];
    assert data == data[..|data| - 1] + [last];
  }
}
