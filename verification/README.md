# ENZYMES cross-validation script, modelled in Dafny

The script `examples/1-enzymes.py` of k-gnn trains a graph neural network on
the ENZYMES graph-classification dataset and reports its accuracy under a
nested ten-fold cross-validation. Most of the file drives `torch` and
`torch_geometric`. This project models the small deterministic pieces the
script itself decides, and proves properties of them:

- **Dataset hooks** (`preprocess.dfy`, module `Preprocess`). `MyFilter` admits a
  graph when it has at least 4 nodes and at least as many edges as nodes.
  `MyPreTransform` keeps the last three columns of every node-feature row.
  The dataset library runs the filter first and the transform second.
- **Reordering** (`permutation.dfy`, module `Permutation`). `dataset[perm]`
  reorders the dataset by a stored permutation.
- **Nested split** (`foldsplit.dfy`, module `FoldSplit`). For fold `i`, a 0/1
  mask marks block `i` of the dataset as the test set, and `1 - mask` keeps
  the rest. The same step on the rest yields the validation set and the
  training set. `NestedSplit` defines the split by slices. `MaskedSplit`
  builds the masks and selects through them as the script does, and its
  contract proves that both give the same result.
- **Evaluator** (`evaluate.dfy`, module `Evaluate`). `test(loader)` counts
  correct predictions over batches of 128 and divides by the split size.
  Predictions are inputs.
- **Best checkpoint** (`checkpoint.dfy`, module `Checkpoint`). The epoch loop
  keeps the best validation accuracy so far. On a tie or an improvement it
  records that epoch's test accuracy. Accuracies are modelled as `real`.
- `outcomes.dfy` (module `Outcomes`) holds the `Result` type and the two
  exceptions the script can raise here (division by zero, index out of range).
  `sequences.dfy` (module `Sequences`) holds `Distinct`, `Increasing`, dataset
  `Positions`, boolean-mask selection `Select` and a multiplication fact.

Statements about dataset *positions* ("every position is used once", "the
test blocks do not overlap", "order is kept") apply the generic split to
`Positions(len)`, the sequence `0, 1, …, len-1`. The test set of fold `i` is
the block `HoldOut(data, i).0` that `NestedSplit` cuts first.

## Model

| member | source | states |
|---|---|---|
| `Preprocess.Admit` | examples/1-enzymes.py:15-17 | `MyFilter` admits a graph with at least 4 nodes and at least as many edges as nodes, so every admitted graph has at least 4 edges |
| `Preprocess.FilterGraphs` | examples/1-enzymes.py:15-17 | the pre-filter keeps exactly the admitted graphs: every kept graph comes from the input and passes, and every passing input graph is kept |
| `Preprocess.FilterKeepsCounts` | examples/1-enzymes.py:15-17 | each admitted graph occurs in the filtered dataset as often as in the input, every other graph 0 times |
| `Preprocess.FilterIsSelect` | examples/1-enzymes.py:15-17 | the pre-filter keeps the input order: its result is the input selected through the mask of the filter's verdicts |
| `Preprocess.LastColumns` | examples/1-enzymes.py:22 | `row[-3:]` has min(3, len) entries, namely the trailing ones of the row, so a short row is kept whole |
| `Preprocess.PreTransform` | examples/1-enzymes.py:20-23 | the pre-transform keeps node count, edges and label, reduces each node row to its last min(3, width) columns, and does not change whether the filter admits the graph |
| `Preprocess.PreTransformIdempotent` | examples/1-enzymes.py:22 | applying the pre-transform twice gives the same graph as applying it once |
| `Preprocess.LoadDataset` | examples/1-enzymes.py:28-32 | the dataset library runs the pre-filter over the raw graphs and then the pre-transform over each survivor in order; every graph of the loaded dataset passes the filter and has at most 3 feature columns per node, there are no more graphs than in the raw data, and the transform of every admitted raw graph is in the loaded dataset |
| `Preprocess.LoadIsSelect` | examples/1-enzymes.py:28-32 | in order and with multiplicity, the loaded dataset is the transformed raw data selected through the filter's verdicts on the raw graphs |
| `Preprocess.FilterCommutesWithTransform` | examples/1-enzymes.py:28-32 | filtering then transforming gives the same dataset as transforming then filtering |
| `Permutation.Permute` | examples/1-enzymes.py:36-37 | `dataset[perm]` succeeds exactly when every index is below the dataset length, and then item k is dataset item `perm[k]`; otherwise it raises an index-out-of-range error |
| `Permutation.PermutePreservesMultiset` | examples/1-enzymes.py:34-37 | reordering by a permutation of 0..n-1 (as `torch.randperm` makes) succeeds and yields the same multiset of graphs |
| `Permutation.PermutationHits` | examples/1-enzymes.py:34-37 | a permutation of 0..n-1 contains every value below n |
| `Sequences.SelectMultiset` | examples/1-enzymes.py:120-121 | `dataset[mask]` never invents or duplicates an item: each comes out at most as often as it went in, and exactly as often when the mask is set everywhere the item occurs |
| `FoldSplit.BlockMask` | examples/1-enzymes.py:117-119 | `torch.zeros(len)` followed by the slice assignment `mask[lo:hi] = 1`, with Python's clamping of both bounds, yields a mask of length `len` that marks exactly the positions in `[lo, hi)`; positions past the end are not marked |
| `FoldSplit.Flip` | examples/1-enzymes.py:121 | `1 - mask` has the mask's length and turns a mask marking exactly `[lo, hi)` into one marking exactly the positions outside it |
| `FoldSplit.SelectWindow` | examples/1-enzymes.py:117-120 | selecting through a 0/1 mask that is set exactly on positions `[lo, hi)` yields items `[lo, hi)`, in order |
| `FoldSplit.SelectOutside` | examples/1-enzymes.py:121 | selecting through a mask set exactly outside `[lo, hi)` (what `1 - mask` gives) yields the items before `lo` followed by the items from `hi`, in order |
| `FoldSplit.BlockStartIsProduct` | examples/1-enzymes.py:118-119 | block i starts at `i * n` with `n = len // 10` |
| `FoldSplit.BlockInBounds` | examples/1-enzymes.py:118-119 | for fold i < 10, block `[i*n, (i+1)*n)` lies inside the sequence and has `n` positions |
| `FoldSplit.HoldOut` | examples/1-enzymes.py:117-121 | cutting block i out gives a block of `len // 10` items and a rest of the remaining items, together holding every item exactly as often as the input |
| `FoldSplit.MaskedHoldOut` | examples/1-enzymes.py:117-121 | the script's mask computation (zeros, `mask[i*n:(i+1)*n] = 1`, select by `mask` and by `1 - mask`) yields exactly the slices `[i*n, (i+1)*n)` and before plus after |
| `FoldSplit.NestedSplit` | examples/1-enzymes.py:117-127 | test, validation and training sets have sizes `n = len // 10`, `(len - n) // 10` and the rest, and together hold every dataset item exactly as often as the dataset does |
| `FoldSplit.MaskedSplit` | examples/1-enzymes.py:117-127 | the two masking rounds of the script compute exactly `NestedSplit` |
| `FoldSplit.SplitDisjoint` | examples/1-enzymes.py:117-127 | for a dataset without repeated items (such as its positions) the three sets are pairwise disjoint and their union is the dataset |
| `FoldSplit.HoldOutKeepsOrder` | examples/1-enzymes.py:117-121 | cutting a block from increasing positions leaves both the block and the rest increasing |
| `FoldSplit.SplitKeepsOrder` | examples/1-enzymes.py:117-127 | every part of every fold lists its dataset positions in increasing order, so the split keeps the original relative order |
| `FoldSplit.TestPositions` | examples/1-enzymes.py:117-120 | position p is in the test set of fold i exactly when `i*n <= p < (i+1)*n` |
| `FoldSplit.TestBlocksDisjoint` | examples/1-enzymes.py:111-120 | the test sets of two different folds share no position |
| `FoldSplit.TailNeverTested` | examples/1-enzymes.py:111-119 | the last `len % 10` positions are in no fold's test set |
| `FoldSplit.EveryLeadingPositionTested` | examples/1-enzymes.py:111-119 | every position before that tail is in the test set of fold `p // n` |
| `Evaluate.CountCorrect` | examples/1-enzymes.py:106 | `pred.eq(data.y).sum()` counts at most one hit per graph |
| `Evaluate.CountIsHits` | examples/1-enzymes.py:101-106 | the accumulated `correct` equals the number of positions where the prediction equals the label |
| `Evaluate.CountExtremes` | examples/1-enzymes.py:101-106 | `correct` equals the split size exactly when every prediction is right, and is 0 exactly when every prediction is wrong |
| `Evaluate.CountAppend` | examples/1-enzymes.py:103-106 | counting two consecutive batches separately and adding gives the count over both |
| `Evaluate.Test` | examples/1-enzymes.py:99-107 | batch-by-batch accumulation over batches of 128 gives an accuracy in [0, 1] whose product with the split size is the number of correct predictions; an empty split raises a division by zero instead |
| `Checkpoint.Step` | examples/1-enzymes.py:141-143 | one epoch never lowers `best_val_acc`, leaves it at least the epoch's validation score, and either keeps the state or records this epoch's pair; on a tie or improvement `test_acc` is this epoch's test score |
| `Checkpoint.Track` | examples/1-enzymes.py:135-143 | after any number of epochs, `best_val_acc` is at least 0, at least every validation score seen, and is either 0 or one of those scores |
| `Checkpoint.BestNeverDecreases` | examples/1-enzymes.py:141-143 | `best_val_acc` after k epochs is at most its value after m >= k epochs |
| `Checkpoint.BestIsMaximum` | examples/1-enzymes.py:135-143 | with non-negative scores and at least one epoch, `best_val_acc` ends as the maximum validation score |
| `Checkpoint.TestFromLastBestEpoch` | examples/1-enzymes.py:135-143 | the recorded `test_acc` is the test score of the last epoch whose validation score equals the final best (ties update because of `>=`), or 0 if no epoch reached 0 |
| `Checkpoint.ScoresStayInRange` | examples/1-enzymes.py:135-143 | if all scores lie in [0, 1], so do the recorded `best_val_acc` and `test_acc` |

## Left out

- The network (`GraphConv`, `scatter_mean`, ELU, linear layers, `log_softmax`), autograd, Adam and `ReduceLROnPlateau`: library code whose behaviour is not visible here. Per-epoch validation and test accuracies and per-graph predictions are inputs.
- The argmax in `model(data).max(1)[1]` and its tie-breaking: defined by the tensor library. Predictions are given.
- The loss accumulation in `train` and `val`, and the final mean and standard deviation over folds: floating-point numerics.
- Dataset download and caching, `torch.load` of the permutation from a fixed path, device selection, `DataLoader` shuffling of the training set, the `--no-train` flag and console printing: I/O and library plumbing.
- The filter-then-transform order inside the dataset library is taken from that library. The library is not part of this model. `FilterCommutesWithTransform` shows that the order does not change the result.
- `Permutation.Permute`: indices are naturals. The negative indices that torch would wrap around are not modelled; the stored permutation never holds any.
- `Checkpoint.Track`: covers any number of epochs. The script always runs 200 (`range(1, 201)`), and that constant is not built into the model.
- `Evaluate.Test`: takes one prediction per graph, in loader order. A shape mismatch between predictions and labels is excluded by its precondition.
- `Evaluate.Test`: the accuracy `correct / len(loader.dataset)` is exact rational division here, not a float; its product with the split size gives back the count exactly, which rounding would not guarantee.
- Fold indices are limited to `0 <= i < 10`, the range the script loops over.
