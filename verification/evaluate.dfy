/** The evaluator `test(loader)`: it walks the loader batch by batch, adds
    up how many predicted classes equal the labels, and divides by the size
    of the dataset. The predictions themselves come from the network and are
    inputs here, one per graph in loader order. */
module Evaluate {
  import opened Outcomes

  /** `BATCH`: graphs per loader batch. */
  const Batch: nat := 128

  /** `pred.eq(y).sum()`: how many positions hold a prediction equal to the
      label. */
  function CountCorrect(preds: seq<int>, labels: seq<int>): (c: nat)
    requires |preds| == |labels|
    ensures c <= |preds|
  {
    if |preds| == 0 then 0
    else
      var n := |preds| - 1;
      CountCorrect(preds[..n], labels[..n]) + (if preds[n] == labels[n] then 1 else 0)
  }

  /** The positions where the prediction is right. */
  function Hits(preds: seq<int>, labels: seq<int>): set<nat>
    requires |preds| == |labels|
  {
    set k: nat | k < |preds| && preds[k] == labels[k]
  }

  /** The count is the number of positions where the prediction is right. */
  lemma {:induction false} CountIsHits(preds: seq<int>, labels: seq<int>)
    requires |preds| == |labels|
    ensures CountCorrect(preds, labels) == |Hits(preds, labels)|
    decreases |preds|
  {
    if |preds| > 0 {
      var n := |preds| - 1;
      CountIsHits(preds[..n], labels[..n]);
      var before := Hits(preds[..n], labels[..n]);
      if preds[n] == labels[n] {
        assert Hits(preds, labels) == before + {n};
        assert n !in before;
      } else {
        assert Hits(preds, labels) == before;
      }
    }
  }

  /** The count is full exactly when every prediction is right, and zero
      exactly when every prediction is wrong. */
  lemma {:induction false} CountExtremes(preds: seq<int>, labels: seq<int>)
    requires |preds| == |labels|
    ensures CountCorrect(preds, labels) == |preds| <==>
      forall k :: 0 <= k < |preds| ==> preds[k] == labels[k]
    ensures CountCorrect(preds, labels) == 0 <==>
      forall k :: 0 <= k < |preds| ==> preds[k] != labels[k]
    decreases |preds|
  {
    if |preds| > 0 {
      var n := |preds| - 1;
      CountExtremes(preds[..n], labels[..n]);
      assert forall k :: 0 <= k < n ==> preds[..n][k] == preds[k] && labels[..n][k] == labels[k];
    }
  }

  /** Counting batch by batch gives the count over the whole sequence. */
  lemma {:induction false} CountAppend(p: seq<int>, l: seq<int>, p': seq<int>, l': seq<int>)
    requires |p| == |l| && |p'| == |l'|
    ensures CountCorrect(p + p', l + l') == CountCorrect(p, l) + CountCorrect(p', l')
    decreases |p'|
  {
    if |p'| == 0 {
      assert p + p' == p && l + l' == l;
    } else {
      var n := |p'| - 1;
      CountAppend(p, l, p'[..n], l'[..n]);
      assert (p + p')[..|p| + n] == p + p'[..n];
      assert (l + l')[..|l| + n] == l + l'[..n];
    }
  }

  /** `test(loader)`: the accuracy over a split, accumulated over batches of
      `Batch` graphs. An empty split makes the final division raise. */
  method Test(preds: seq<int>, labels: seq<int>) returns (r: Result<real>)
    requires |preds| == |labels|
    ensures r.Err? <==> |preds| == 0
    ensures r.Err? ==> r.error == ZeroDivision
    ensures r.Ok? ==> 0.0 <= r.value <= 1.0
    ensures r.Ok? ==> r.value * (|preds| as real) == CountCorrect(preds, labels) as real
  {
    var correct: nat := 0;
    var start := 0;
    while start < |preds|
      invariant start <= |preds|
      invariant correct == CountCorrect(preds[..start], labels[..start])
    {
      var end := if start + Batch <= |preds| then start + Batch else |preds|;
      CountAppend(preds[..start], labels[..start], preds[start..end], labels[start..end]);
      assert preds[..start] + preds[start..end] == preds[..end];
      assert labels[..start] + labels[start..end] == labels[..end];
      correct := correct + CountCorrect(preds[start..end], labels[start..end]);
      start := end;
    }
    assert preds[..start] == preds && labels[..start] == labels;
    if |preds| == 0 {
      return Err(ZeroDivision);
    }
    Ratio(correct, |preds|);
    r := Ok(correct as real / |preds| as real);
  }

  /** A count of at most `n` out of `n > 0` gives a ratio in [0, 1] that
      scales back to the count. */
  lemma Ratio(c: nat, n: nat)
    requires 0 < n && c <= n
    ensures 0.0 <= c as real / n as real <= 1.0
    ensures (c as real / n as real) * (n as real) == c as real
  {
  }
}
