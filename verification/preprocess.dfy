/** The two hooks the script hands to the ENZYMES dataset loader: the
    pre-filter `MyFilter`, which decides which graphs enter the dataset, and
    the pre-transform `MyPreTransform`, which keeps only the node attributes
    (the last three feature columns). */
module Preprocess {
  import opened Sequences

  /** A graph as the dataset stores it: one feature row per node, the edge
      index as a list of (source, target) columns, and the class label. */
  datatype Graph = Graph(x: seq<seq<real>>, edgeIndex: seq<(nat, nat)>, y: nat)

  /** Smallest node count `MyFilter` admits. */
  const MinNodes: nat := 4

  /** Number of trailing feature columns `MyPreTransform` keeps. */
  const KeptColumns: nat := 3

  /** `data.num_nodes`: the number of rows of the node-feature matrix. */
  function NumNodes(g: Graph): nat { |g.x| }

  /** `data.num_edges`: the number of columns of the edge index. */
  function NumEdges(g: Graph): nat { |g.edgeIndex| }

  function Min(a: nat, b: nat): nat { if a <= b then a else b }

  /** `MyFilter.__call__`: whether a graph is kept in the dataset. */
  predicate Admit(g: Graph)
    ensures Admit(g) ==> NumEdges(g) >= MinNodes
  {
    NumNodes(g) >= MinNodes && NumEdges(g) >= NumNodes(g)
  }

  /** Python's `row[-3:]`: a negative start past the front clamps to 0, so a
      row shorter than three columns is kept whole. */
  function LastColumns(row: seq<real>): (r: seq<real>)
    ensures |r| == Min(KeptColumns, |row|)
    ensures forall c :: 0 <= c < |r| ==> r[c] == row[|row| - |r| + c]
  {
    var start := if |row| >= KeptColumns then |row| - KeptColumns else 0;
    row[start..]
  }

  /** `MyPreTransform.__call__`: `data.x = data.x[:, -3:]`. Node count,
      edges and label are untouched; every row keeps its trailing columns. */
  function PreTransform(g: Graph): (r: Graph)
    ensures NumNodes(r) == NumNodes(g) && NumEdges(r) == NumEdges(g)
    ensures r.edgeIndex == g.edgeIndex && r.y == g.y
    ensures forall k :: 0 <= k < NumNodes(g) ==>
      |r.x[k]| == Min(KeptColumns, |g.x[k]|) &&
      forall c :: 0 <= c < |r.x[k]| ==> r.x[k][c] == g.x[k][|g.x[k]| - |r.x[k]| + c]
    ensures Admit(r) <==> Admit(g)
  {
    Graph(seq(|g.x|, k requires 0 <= k < |g.x| => LastColumns(g.x[k])), g.edgeIndex, g.y)
  }

  /** Applying the pre-transform a second time changes nothing: every row
      already has at most three columns. */
  lemma PreTransformIdempotent(g: Graph)
    ensures PreTransform(PreTransform(g)) == PreTransform(g)
  {
  }

  /** The dataset's pre-filter pass: the admitted graphs, in their order. */
  function FilterGraphs(ds: seq<Graph>): (r: seq<Graph>)
    ensures |r| <= |ds|
    ensures forall g :: g in r ==> g in ds && Admit(g)
    ensures forall g :: g in ds && Admit(g) ==> g in r
  {
    if |ds| == 0 then [] else (if Admit(ds[0]) then [ds[0]] else []) + FilterGraphs(ds[1..])
  }

  /** Every admitted graph is kept as often as it occurs, every other graph
      is dropped. */
  lemma {:induction false} FilterKeepsCounts(ds: seq<Graph>)
    ensures forall g :: multiset(FilterGraphs(ds))[g] == if Admit(g) then multiset(ds)[g] else 0
    decreases |ds|
  {
    if |ds| > 0 {
      FilterKeepsCounts(ds[1..]);
      assert ds == [ds[0]] + ds[1..];
      FilterCons(ds);
    }
  }

  /** The filter's verdict on every graph, as a 0/1 mask. */
  function AdmitMask(ds: seq<Graph>): (m: seq<bool>)
    ensures |m| == |ds|
  {
    seq(|ds|, k requires 0 <= k < |ds| => Admit(ds[k]))
  }

  /** The pre-filter pass keeps the input order: it is the selection of
      the dataset through the filter's verdicts. */
  lemma {:induction false} FilterIsSelect(ds: seq<Graph>)
    ensures FilterGraphs(ds) == Select(ds, AdmitMask(ds))
    decreases |ds|
  {
    if |ds| > 0 {
      var tail := ds[1..];
      assert AdmitMask(ds)[1..] == AdmitMask(tail);
      FilterIsSelect(tail);
    }
  }

  /** The dataset's pre-transform pass: each graph of the list, in order,
      replaced by its transformed graph. */
  function TransformGraphs(ds: seq<Graph>): (r: seq<Graph>)
    ensures |r| == |ds|
    ensures forall k :: 0 <= k < |ds| ==> r[k] == PreTransform(ds[k])
    ensures forall g :: g in ds ==> PreTransform(g) in r
  {
    var r := seq(|ds|, k requires 0 <= k < |ds| => PreTransform(ds[k]));
    assert forall k :: 0 <= k < |ds| ==> r[k] in r;
    r
  }

  /** Loading the dataset: the pre-filter runs first, then the pre-transform
      runs on the survivors. Every graph that comes out passes the filter
      and has at most three feature columns per node, and every admitted raw
      graph comes out, transformed. */
  function LoadDataset(raw: seq<Graph>): (ds: seq<Graph>)
    ensures |ds| <= |raw|
    ensures forall g :: g in ds ==>
      Admit(g) &&
      forall k :: 0 <= k < NumNodes(g) ==> |g.x[k]| <= KeptColumns
    ensures forall g :: g in raw && Admit(g) ==> PreTransform(g) in ds
  {
    TransformGraphs(FilterGraphs(raw))
  }

  /** The loaded dataset, in order and with multiplicity: the transformed
      raw graphs, selected through the filter's verdicts on the raw graphs. */
  lemma {:induction false} LoadIsSelect(raw: seq<Graph>)
    ensures LoadDataset(raw) == Select(TransformGraphs(raw), AdmitMask(raw))
  {
    var moved := TransformGraphs(raw);
    FilterCommutesWithTransform(raw);
    FilterIsSelect(moved);
    assert AdmitMask(moved) == AdmitMask(raw);
  }

  /** Because the pre-transform keeps node and edge counts, the order of the
      two passes does not matter. */
  lemma {:induction false} FilterCommutesWithTransform(raw: seq<Graph>)
    ensures LoadDataset(raw) == FilterGraphs(TransformGraphs(raw))
    decreases |raw|
  {
    if |raw| > 0 {
      var tail := raw[1..];
      var head := if Admit(raw[0]) then [raw[0]] else [];
      var moved := TransformGraphs(raw);
      assert moved[0] == PreTransform(raw[0]);
      var head' := if Admit(moved[0]) then [moved[0]] else [];
      calc {
        LoadDataset(raw);
        TransformGraphs(FilterGraphs(raw));
        { FilterCons(raw); }
        TransformGraphs(head + FilterGraphs(tail));
        { TransformAppend(head, FilterGraphs(tail)); }
        TransformGraphs(head) + TransformGraphs(FilterGraphs(tail));
        { FilterCommutesWithTransform(tail); }
        TransformGraphs(head) + FilterGraphs(TransformGraphs(tail));
        { assert TransformGraphs(head) == head'; }
        head' + FilterGraphs(TransformGraphs(tail));
        { assert moved[1..] == TransformGraphs(tail); }
        { FilterCons(moved); }
        FilterGraphs(moved);
      }
    }
  }

  lemma FilterCons(ds: seq<Graph>)
    requires |ds| > 0
    ensures FilterGraphs(ds) == (if Admit(ds[0]) then [ds[0]] else []) + FilterGraphs(ds[1..])
  {
  }

  lemma TransformAppend(a: seq<Graph>, b: seq<Graph>)
    ensures TransformGraphs(a + b) == TransformGraphs(a) + TransformGraphs(b)
  {
  }
}
