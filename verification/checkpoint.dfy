/** Best-checkpoint selection in the epoch loop of one fold: after each
    epoch the validation accuracy is compared with the best so far, and on a
    tie or an improvement the test accuracy of that epoch is recorded.
    Accuracies are abstract ordered values (`real`), one pair per epoch. */
module Checkpoint {

  /** The loop's two variables `best_val_acc` and `test_acc`. */
  datatype Best = Best(bestVal: real, test: real)

  /** `best_val_acc, test_acc = 0, 0`. */
  const Start: Best := Best(0.0, 0.0)

  /** One epoch: `if val_acc >= best_val_acc` record both scores. The best
      score never drops and ends at least the epoch's score; the state
      either stays or becomes this epoch's pair. */
  function Step(b: Best, val: real, test: real): (r: Best)
    ensures r.bestVal >= b.bestVal && r.bestVal >= val
    ensures r == b || r == Best(val, test)
    ensures val >= b.bestVal ==> r.test == test
  {
    if val >= b.bestVal then Best(val, test) else b
  }

  /** The state after running the epochs whose validation and test scores
      are `vals` and `tests`. The best validation score is never below the
      start value 0, bounds every score seen, and is either 0 or one of them. */
  function Track(vals: seq<real>, tests: seq<real>): (r: Best)
    requires |vals| == |tests|
    ensures r.bestVal >= 0.0
    ensures forall k :: 0 <= k < |vals| ==> vals[k] <= r.bestVal
    ensures r.bestVal == 0.0 || r.bestVal in vals
  {
    if |vals| == 0 then Start
    else
      var n := |vals| - 1;
      Step(Track(vals[..n], tests[..n]), vals[n], tests[n])
  }

  /** The last epoch whose validation score is `v`, or -1 if there is none. */
  function LastIndexOf(vals: seq<real>, v: real): (i: int)
    ensures -1 <= i < |vals|
    ensures i == -1 ==> v !in vals
    ensures 0 <= i ==> vals[i] == v && forall j :: i < j < |vals| ==> vals[j] != v
  {
    if |vals| == 0 then -1
    else if vals[|vals| - 1] == v then |vals| - 1
    else LastIndexOf(vals[..|vals| - 1], v)
  }

  /** `best_val_acc` never decreases: after more epochs it is at least what
      it was after fewer. */
  lemma BestNeverDecreases(vals: seq<real>, tests: seq<real>, k: nat, m: nat)
    requires |vals| == |tests| && k <= m <= |vals|
    ensures Track(vals[..k], tests[..k]).bestVal <= Track(vals[..m], tests[..m]).bestVal
  {
  }

  /** With non-negative scores and at least one epoch, `best_val_acc` ends as
      the maximum validation score seen. */
  lemma BestIsMaximum(vals: seq<real>, tests: seq<real>)
    requires |vals| == |tests| && |vals| > 0
    requires forall k :: 0 <= k < |vals| ==> vals[k] >= 0.0
    ensures var r := Track(vals, tests);
      r.bestVal in vals && forall k :: 0 <= k < |vals| ==> vals[k] <= r.bestVal
  {
  }

  /** Because ties update, the recorded test score is the one from the last
      epoch whose validation score equals the final best; if no validation
      score ever reached 0, nothing was recorded. */
  lemma {:induction false} TestFromLastBestEpoch(vals: seq<real>, tests: seq<real>)
    requires |vals| == |tests|
    ensures var r := Track(vals, tests);
      var i := LastIndexOf(vals, r.bestVal);
      r.test == if i >= 0 then tests[i] else 0.0
    decreases |vals|
  {
    if |vals| > 0 {
      var n := |vals| - 1;
      var prev := Track(vals[..n], tests[..n]);
      TestFromLastBestEpoch(vals[..n], tests[..n]);
      if vals[n] < prev.bestVal {
        assert LastIndexOf(vals, prev.bestVal) == LastIndexOf(vals[..n], prev.bestVal);
        var i := LastIndexOf(vals[..n], prev.bestVal);
        if i >= 0 {
          assert tests[..n][i] == tests[i];
        }
      }
    }
  }

  /** Accuracies lie in [0, 1]; so do both recorded values. */
  lemma {:induction false} ScoresStayInRange(vals: seq<real>, tests: seq<real>)
    requires |vals| == |tests|
    requires forall k :: 0 <= k < |vals| ==> 0.0 <= vals[k] <= 1.0 && 0.0 <= tests[k] <= 1.0
    ensures var r := Track(vals, tests);
      0.0 <= r.bestVal <= 1.0 && 0.0 <= r.test <= 1.0
    decreases |vals|
  {
    if |vals| > 0 {
      var n := |vals| - 1;
      ScoresStayInRange(vals[..n], tests[..n]);
    }
  }
}
