/** The nested ten-fold split of the (already permuted) dataset. For fold
    `i` the script builds a 0/1 mask that marks a contiguous block, takes the
    marked items as the held-out part and the unmarked items (`1 - mask`) as
    the rest; it does this once on the dataset (test block) and once more on
    the rest (validation block). */
module FoldSplit {
  import opened Sequences

  /** Number of cross-validation folds: `for i in range(10)` and `// 10`. */
  const Folds: nat := 10

  /** The three parts of one fold. */
  datatype Split<T> = Split(train: seq<T>, val: seq<T>, test: seq<T>)

  /** `torch.zeros(len)` as a 0/1 mask: nothing marked. */
  function Zeros(len: nat): (m: seq<bool>)
    ensures |m| == len && forall k :: 0 <= k < len ==> !m[k]
  {
    seq(len, k => false)
  }

  /** Python's `m[lo:hi] = 1` for non-negative bounds: both bounds clamp to
      the length of `m` (and `hi` to at least `lo`), the entries in between
      become 1 and all others are kept. */
  function AssignOnes(m: seq<bool>, lo: nat, hi: nat): (r: seq<bool>)
  {
    var a := if lo <= |m| then lo else |m|;
    var c := if hi <= |m| then hi else |m|;
    var b := if a <= c then c else a;
    m[..a] + seq(b - a, k => true) + m[b..]
  }

  /** `mask = torch.zeros(len); mask[lo:hi] = 1`: the mask has the dataset's
      length and marks exactly the positions of the window, so a window that
      runs past the end marks nothing there. */
  function BlockMask(len: nat, lo: nat, hi: nat): (m: seq<bool>)
    ensures |m| == len
    ensures MarksWindow(m, lo, hi)
  {
    AssignOnes(Zeros(len), lo, hi)
  }

  /** `1 - mask` on a 0/1 mask: every entry the mask marks is unmarked and
      every other entry is marked, so a window mask becomes its outside. */
  function Flip(m: seq<bool>): (c: seq<bool>)
    ensures |c| == |m|
    ensures forall lo: nat, hi: nat :: MarksWindow(m, lo, hi) ==> MarksOutside(c, lo, hi)
  {
    seq(|m|, k requires 0 <= k < |m| => !m[k])
  }

  /** A mask marks exactly the positions of the window `[lo, hi)`. */
  predicate MarksWindow(m: seq<bool>, lo: nat, hi: nat)
  {
    forall k :: 0 <= k < |m| ==> (m[k] <==> lo <= k < hi)
  }

  /** A mask marks exactly the positions outside the window `[lo, hi)`. */
  predicate MarksOutside(m: seq<bool>, lo: nat, hi: nat)
  {
    forall k :: 0 <= k < |m| ==> (m[k] <==> !(lo <= k < hi))
  }

  /** Selecting through a window mask is slicing out the window. */
  lemma {:induction false} SelectWindow<T>(s: seq<T>, m: seq<bool>, lo: nat, hi: nat)
    requires |m| == |s| && lo <= hi <= |s| && MarksWindow(m, lo, hi)
    ensures Select(s, m) == s[lo..hi]
    decreases |s|
  {
    if |s| > 0 {
      var tail, m' := s[1..], m[1..];
      assert Select(s, m) == (if m[0] then [s[0]] else []) + Select(tail, m');
      if lo > 0 {
        assert MarksWindow(m', lo - 1, hi - 1);
        SelectWindow(tail, m', lo - 1, hi - 1);
        assert tail[lo - 1..hi - 1] == s[lo..hi];
      } else if hi > 0 {
        assert MarksWindow(m', 0, hi - 1);
        SelectWindow(tail, m', 0, hi - 1);
        assert [s[0]] + tail[0..hi - 1] == s[0..hi];
      } else {
        assert MarksWindow(m', 0, 0);
        SelectWindow(tail, m', 0, 0);
      }
    }
  }

  /** Selecting through the complement of a window mask keeps what lies
      before and after the window, in order. */
  lemma {:induction false} SelectOutside<T>(s: seq<T>, m: seq<bool>, lo: nat, hi: nat)
    requires |m| == |s| && lo <= hi <= |s| && MarksOutside(m, lo, hi)
    ensures Select(s, m) == s[..lo] + s[hi..]
    decreases |s|
  {
    if |s| > 0 {
      var tail, m' := s[1..], m[1..];
      assert Select(s, m) == (if m[0] then [s[0]] else []) + Select(tail, m');
      if lo > 0 {
        assert m[0] && MarksOutside(m', lo - 1, hi - 1);
        SelectOutside(tail, m', lo - 1, hi - 1);
        assert [s[0]] + (tail[..lo - 1] + tail[hi - 1..]) == s[..lo] + s[hi..];
      } else if hi > 0 {
        assert !m[0] && MarksOutside(m', 0, hi - 1);
        SelectOutside(tail, m', 0, hi - 1);
        assert tail[..0] + tail[hi - 1..] == s[..0] + s[hi..];
      } else {
        assert m[0] && MarksOutside(m', 0, 0);
        SelectOutside(tail, m', 0, 0);
        assert [s[0]] + (tail[..0] + tail[0..]) == s[..0] + s[0..];
      }
    }
  }

  /** First position of block `i` when a sequence of length `len` is cut
      into `Folds` blocks of `n = len // 10` items: `i` blocks of `n` come
      before it. */
  function BlockStart(len: nat, i: nat): nat
  {
    if i == 0 then 0 else BlockStart(len, i - 1) + len / Folds
  }

  /** One past the last position of block `i`. */
  function BlockEnd(len: nat, i: nat): nat
  {
    BlockStart(len, i + 1)
  }

  /** Block `i` starts at `i * n`, the slice bound the script writes. */
  lemma {:induction false} BlockStartIsProduct(len: nat, i: nat)
    ensures BlockStart(len, i) == i * (len / Folds)
  {
    if i > 0 {
      BlockStartIsProduct(len, i - 1);
      assert (i - 1) * (len / Folds) + len / Folds == i * (len / Folds);
    }
  }

  /** Later blocks start no earlier. */
  lemma {:induction false} BlockStartMonotone(len: nat, i: nat, j: nat)
    requires i <= j
    ensures BlockStart(len, i) <= BlockStart(len, j)
    decreases j - i
  {
    if i < j {
      BlockStartMonotone(len, i, j - 1);
    }
  }

  /** Block `i` lies inside the sequence and holds `len // 10` positions. */
  lemma BlockInBounds(len: nat, i: nat)
    requires i < Folds
    ensures BlockStart(len, i) <= BlockEnd(len, i) <= len
    ensures BlockEnd(len, i) - BlockStart(len, i) == len / Folds
  {
    BlockStartMonotone(len, i + 1, Folds);
    BlockStartIsProduct(len, Folds);
  }

  /** Cutting a block out and putting the pieces back loses and adds nothing. */
  lemma SliceParts<T>(s: seq<T>, lo: nat, hi: nat)
    requires lo <= hi <= |s|
    ensures multiset(s[lo..hi]) + multiset(s[..lo] + s[hi..]) == multiset(s)
  {
    assert s == s[..lo] + s[lo..hi] + s[hi..];
  }

  /** Block `i` of `items` with `n = len(items) // 10`, that is items
      `[i*n, (i+1)*n)`, and the items before and after it, in order. The
      block has `n` items and the two parts hold every item once. */
  function HoldOut<T>(items: seq<T>, i: nat): (r: (seq<T>, seq<T>))
    requires i < Folds
    ensures |r.0| == |items| / Folds && |r.0| + |r.1| == |items|
    ensures multiset(r.0) + multiset(r.1) == multiset(items)
  {
    var lo, hi := BlockStart(|items|, i), BlockEnd(|items|, i);
    BlockInBounds(|items|, i);
    SliceParts(items, lo, hi);
    (items[lo..hi], items[..lo] + items[hi..])
  }

  /** The script's masking step for fold `i` (examples/1-enzymes.py lines
      117-121 for the test block, 123-127 for the validation block): a zero
      mask with block `i` set to 1 selects the held-out items, and `1 - mask`
      selects the rest. It computes exactly the slices of `HoldOut`. */
  function MaskedHoldOut<T>(items: seq<T>, i: nat): (r: (seq<T>, seq<T>))
    requires i < Folds
    ensures r == HoldOut(items, i)
  {
    var lo, hi := BlockStart(|items|, i), BlockEnd(|items|, i);
    BlockInBounds(|items|, i);
    var mask := BlockMask(|items|, lo, hi);
    SelectWindow(items, mask, lo, hi);
    SelectOutside(items, Flip(mask), lo, hi);
    (Select(items, mask), Select(items, Flip(mask)))
  }

  /** Fold `i` of the nested split: the test block is cut from the dataset,
      the validation block from what remains, and the training set is the
      remainder of the remainder. The sizes are `n`, `n'` and the rest, and
      the three parts hold every item of the dataset exactly as often as the
      dataset does. */
  function NestedSplit<T>(data: seq<T>, i: nat): (r: Split<T>)
    requires i < Folds
    ensures |r.test| == |data| / Folds
    ensures |r.val| == (|data| - |r.test|) / Folds
    ensures |r.train| + |r.val| + |r.test| == |data|
    ensures multiset(r.train) + multiset(r.val) + multiset(r.test) == multiset(data)
  {
    var (test, outer) := HoldOut(data, i);
    var (val, train) := HoldOut(outer, i);
    Split(train, val, test)
  }

  /** The split as the script computes it, through masks, is `NestedSplit`. */
  function MaskedSplit<T>(data: seq<T>, i: nat): (r: Split<T>)
    requires i < Folds
    ensures r == NestedSplit(data, i)
  {
    var (test, outer) := MaskedHoldOut(data, i);
    var (val, train) := MaskedHoldOut(outer, i);
    Split(train, val, test)
  }

  /** A dataset with no repeated items splits into three pairwise disjoint
      parts whose union is the dataset. */
  lemma SplitDisjoint<T>(data: seq<T>, i: nat)
    requires i < Folds && Distinct(data)
    ensures var r := NestedSplit(data, i);
      forall x ::
        (x in data <==> x in r.train || x in r.val || x in r.test) &&
        !(x in r.train && x in r.val) &&
        !(x in r.train && x in r.test) &&
        !(x in r.val && x in r.test)
  {
    var r := NestedSplit(data, i);
    forall x
      ensures x in data <==> x in r.train || x in r.val || x in r.test
      ensures !(x in r.train && x in r.val)
      ensures !(x in r.train && x in r.test)
      ensures !(x in r.val && x in r.test)
    {
      DistinctCount(data, x);
      assert multiset(r.train)[x] + multiset(r.val)[x] + multiset(r.test)[x] == multiset(data)[x];
    }
  }

  lemma {:induction false} DistinctCount<T>(s: seq<T>, x: T)
    requires Distinct(s)
    ensures multiset(s)[x] <= 1
    decreases |s|
  {
    if |s| > 0 {
      assert s == [s[0]] + s[1..];
      assert Distinct(s[1..]);
      DistinctCount(s[1..], x);
      if s[0] == x {
        assert x !in s[1..];
      }
    }
  }

  /** Cutting a block keeps order: from increasing positions both the
      block and the rest come out increasing. */
  lemma HoldOutKeepsOrder(items: seq<nat>, i: nat)
    requires i < Folds && Increasing(items)
    ensures Increasing(HoldOut(items, i).0) && Increasing(HoldOut(items, i).1)
  {
    var lo, hi := BlockStart(|items|, i), BlockEnd(|items|, i);
    BlockInBounds(|items|, i);
    var rest := items[..lo] + items[hi..];
    forall j, k | 0 <= j < k < |rest|
      ensures rest[j] < rest[k]
    {
      var j' := if j < lo then j else j + (hi - lo);
      var k' := if k < lo then k else k + (hi - lo);
      assert rest[j] == items[j'] && rest[k] == items[k'];
    }
  }

  /** Each part of every fold lists its dataset positions in increasing
      order: the split keeps the dataset's relative order. */
  lemma SplitKeepsOrder(len: nat, i: nat)
    requires i < Folds
    ensures var r := NestedSplit(Positions(len), i);
      Increasing(r.train) && Increasing(r.val) && Increasing(r.test)
  {
    var positions := Positions(len);
    HoldOutKeepsOrder(positions, i);
    HoldOutKeepsOrder(HoldOut(positions, i).1, i);
  }

  /** Over dataset positions, the test set of fold `i` (the block that
      `NestedSplit` cuts from the dataset first) is exactly the positions
      `[i*n, (i+1)*n)` with `n = len // 10`. */
  lemma TestPositions(len: nat, i: nat)
    requires i < Folds
    ensures forall p :: p in HoldOut(Positions(len), i).0 <==>
      BlockStart(len, i) <= p < BlockEnd(len, i)
  {
    var lo, hi := BlockStart(len, i), BlockEnd(len, i);
    BlockInBounds(len, i);
    var positions := Positions(len);
    var test := HoldOut(positions, i).0;
    assert test == positions[lo..hi];
    forall p
      ensures p in test <==> lo <= p < hi
    {
      if lo <= p < hi {
        assert test[p - lo] == p;
      }
    }
  }

  /** The ten test blocks do not overlap. */
  lemma TestBlocksDisjoint(len: nat, i: nat, j: nat)
    requires i < Folds && j < Folds && i != j
    ensures forall p :: !(p in HoldOut(Positions(len), i).0 &&
                          p in HoldOut(Positions(len), j).0)
  {
    TestPositions(len, i);
    TestPositions(len, j);
    if i < j {
      BlockStartMonotone(len, i + 1, j);
    } else {
      BlockStartMonotone(len, j + 1, i);
    }
  }

  /** The last `len % 10` positions are in no test block. */
  lemma TailNeverTested(len: nat, i: nat)
    requires i < Folds
    ensures forall p :: len - len % Folds <= p < len ==> p !in HoldOut(Positions(len), i).0
  {
    TestPositions(len, i);
    BlockStartMonotone(len, i + 1, Folds);
    BlockStartIsProduct(len, Folds);
  }

  /** Every position before the untested tail falls in the test block of
      the fold `p / n`. */
  lemma EveryLeadingPositionTested(len: nat, p: nat)
    requires p < len - len % Folds
    ensures len / Folds > 0 && p / (len / Folds) < Folds
    ensures p in HoldOut(Positions(len), p / (len / Folds)).0
  {
    var n := len / Folds;
    assert len - len % Folds == Folds * n;
    assert n > 0;
    var f := p / n;
    assert f * n <= p < (f + 1) * n;
    if f >= Folds {
      MulMonotone(Folds, f, n);
      assert false;
    }
    TestPositions(len, f);
    BlockStartIsProduct(len, f);
    BlockStartIsProduct(len, f + 1);
  }
}
