/** Small facts about sequences shared by the dataset operations. */
module Sequences {

  /** No item occurs twice. */
  predicate Distinct<T(==)>(s: seq<T>)
  {
    forall j, k :: 0 <= j < k < |s| ==> s[j] != s[k]
  }

  /** Strictly increasing: the items appear in their original order. */
  predicate Increasing(s: seq<nat>)
  {
    forall j, k :: 0 <= j < k < |s| ==> s[j] < s[k]
  }

  /** The positions 0 .. n-1 of a dataset of length n, in order. */
  function Positions(n: nat): (r: seq<nat>)
    ensures |r| == n && Distinct(r) && Increasing(r)
    ensures forall k :: 0 <= k < n ==> r[k] == k
  {
    seq(n, k requires 0 <= k < n => k)
  }

  /** `items[mask]`: the items whose mask entry is set, in their order. */
  function Select<T>(s: seq<T>, m: seq<bool>): (r: seq<T>)
    requires |m| == |s|
    ensures |r| <= |s|
  {
    if |s| == 0 then [] else (if m[0] then [s[0]] else []) + Select(s[1..], m[1..])
  }

  /** Selecting through a mask never invents or duplicates an item: each
      comes out at most as often as it went in, and exactly as often when
      the mask is set at every position that holds it. */
  lemma {:induction false} SelectMultiset<T>(s: seq<T>, m: seq<bool>)
    requires |m| == |s|
    ensures multiset(Select(s, m)) <= multiset(s)
    ensures forall x :: (forall k :: 0 <= k < |s| && s[k] == x ==> m[k]) ==>
      multiset(Select(s, m))[x] == multiset(s)[x]
    decreases |s|
  {
    if |s| > 0 {
      var tail, m' := s[1..], m[1..];
      SelectMultiset(tail, m');
      assert s == [s[0]] + tail;
      assert Select(s, m) == (if m[0] then [s[0]] else []) + Select(tail, m');
      forall x | forall k :: 0 <= k < |s| && s[k] == x ==> m[k]
        ensures multiset(Select(s, m))[x] == multiset(s)[x]
      {
        assert forall k :: 0 <= k < |tail| && tail[k] == x ==> m'[k] by {
          forall k | 0 <= k < |tail| && tail[k] == x ensures m'[k] {
            assert s[k + 1] == x;
          }
        }
      }
    }
  }

  /** Scaling both sides of `a <= b` by the same natural. */
  lemma MulMonotone(a: nat, b: nat, n: nat)
    requires a <= b
    ensures a * n <= b * n
  {
    assert b * n == a * n + (b - a) * n;
  }
}
