// `assign_subgraph_ids`: build the dataset graph with an edge from every input to every output
// of each run, number its weakly connected components, and label each run with the component of
// one of its datasets (`None` when none of its datasets is in the graph).
module Subgraph {
  import opened Wrappers
  import opened Text
  import opened Runs

  type Edge = (string, string)

  // The edges a run adds: every input to every output.
  function RunEdges(r: Run): (es: set<Edge>)
    ensures forall e | e in es :: e.0 in r.inputs && e.1 in r.outputs
  {
    set i, o | i in r.inputs && o in r.outputs :: (i, o)
  }

  // The edge set of the graph built from `runs`.
  function GraphEdges(runs: seq<Run>): set<Edge> {
    if |runs| == 0 then {} else GraphEdges(runs[..|runs| - 1]) + RunEdges(runs[|runs| - 1])
  }

  function Nodes(es: set<Edge>): set<string> {
    (set e | e in es :: e.0) + (set e | e in es :: e.1)
  }

  // Every member of `s` is a node. The trigger keeps the solver from chasing a node's edge to
  // its other end and on around the graph.
  predicate AllNodes(es: set<Edge>, s: set<string>) {
    forall x {:trigger x in Nodes(es)} | x in s :: x in Nodes(es)
  }

  // Neighbours when direction is ignored (`G.to_undirected()`).
  predicate Adjacent(es: set<Edge>, a: string, b: string) {
    (a, b) in es || (b, a) in es
  }

  ghost predicate IsPath(es: set<Edge>, p: seq<string>) {
    |p| > 0 && forall k | 0 <= k < |p| - 1 :: Adjacent(es, p[k], p[k + 1])
  }

  // `a` and `b` lie in the same weakly connected component.
  ghost predicate Connected(es: set<Edge>, a: string, b: string) {
    exists p :: IsPath(es, p) && p[0] == a && p[|p| - 1] == b
  }

  // A set that no undirected edge leaves.
  predicate Closed(es: set<Edge>, s: set<string>) {
    forall e | e in es :: (e.0 in s) == (e.1 in s)
  }

  // ---------------------------------------------------------------- connectivity

  lemma ConnectedRefl(es: set<Edge>, a: string)
    ensures Connected(es, a, a)
  {
    assert IsPath(es, [a]);
  }

  lemma ConnectedStep(es: set<Edge>, a: string, b: string)
    requires Adjacent(es, a, b)
    ensures Connected(es, a, b)
  {
    assert IsPath(es, [a, b]);
  }

  lemma ConnectedSym(es: set<Edge>, a: string, b: string)
    requires Connected(es, a, b)
    ensures Connected(es, b, a)
  {
    var p :| IsPath(es, p) && p[0] == a && p[|p| - 1] == b;
    var n := |p|;
    var q := seq(n, k requires 0 <= k < n => p[n - 1 - k]);
    forall k | 0 <= k < n - 1 ensures Adjacent(es, q[k], q[k + 1]) {
      assert Adjacent(es, p[n - 2 - k], p[n - 1 - k]);
    }
    assert IsPath(es, q);
  }

  lemma ConnectedTrans(es: set<Edge>, a: string, b: string, c: string)
    requires Connected(es, a, b) && Connected(es, b, c)
    ensures Connected(es, a, c)
  {
    var p :| IsPath(es, p) && p[0] == a && p[|p| - 1] == b;
    var q :| IsPath(es, q) && q[0] == b && q[|q| - 1] == c;
    var r := p + q[1..];
    forall k | 0 <= k < |r| - 1 ensures Adjacent(es, r[k], r[k + 1]) {
      if k < |p| - 1 {
        assert r[k] == p[k] && r[k + 1] == p[k + 1];
      } else {
        var j := k - (|p| - 1);
        assert r[k] == q[j] && r[k + 1] == q[j + 1];
      }
    }
    assert IsPath(es, r);
  }

  // No path leaves a closed set.
  lemma {:induction false} ClosedPath(es: set<Edge>, s: set<string>, p: seq<string>)
    requires Closed(es, s) && IsPath(es, p) && p[0] in s
    ensures p[|p| - 1] in s
    decreases |p|
  {
    if |p| > 1 {
      var e := if (p[0], p[1]) in es then (p[0], p[1]) else (p[1], p[0]);
      assert e in es;
      assert IsPath(es, p[1..]);
      ClosedPath(es, s, p[1..]);
    }
  }

  lemma ClosedConnected(es: set<Edge>, s: set<string>, a: string, b: string)
    requires Closed(es, s) && a in s && Connected(es, a, b)
    ensures b in s
  {
    var p :| IsPath(es, p) && p[0] == a && p[|p| - 1] == b;
    ClosedPath(es, s, p);
  }

  // ---------------------------------------------------------------- components

  // Every block is a non-empty set of nodes that no edge leaves.
  ghost predicate BlocksClosed(es: set<Edge>, blocks: seq<set<string>>) {
    forall k | 0 <= k < |blocks| :: blocks[k] != {} && AllNodes(es, blocks[k]) && Closed(es, blocks[k])
  }

  // Any two nodes of a block are joined.
  ghost predicate BlocksConnected(es: set<Edge>, blocks: seq<set<string>>) {
    forall k, a, b {:trigger Connected(es, a, b), blocks[k]}
      | 0 <= k < |blocks| && a in blocks[k] && b in blocks[k] :: Connected(es, a, b)
  }

  predicate BlocksDisjoint(blocks: seq<set<string>>) {
    forall i, j | 0 <= i < j < |blocks| :: blocks[i] !! blocks[j]
  }

  // Blocks that cover the nodes exactly once, each a whole component.
  ghost predicate IsComponentPartition(es: set<Edge>, blocks: seq<set<string>>) {
    BlocksClosed(es, blocks)
    && BlocksConnected(es, blocks)
    && BlocksDisjoint(blocks)
    && (forall x | x in Nodes(es) :: exists k | 0 <= k < |blocks| :: x in blocks[k])
  }

  // The component of `root`: grow a set from `root` along undirected edges until no edge leaves it.
  method Component(es: set<Edge>, root: string) returns (comp: set<string>)
    requires root in Nodes(es)
    ensures root in comp && AllNodes(es, comp) && Closed(es, comp)
    ensures forall y {:trigger Connected(es, root, y)} | y in comp :: Connected(es, root, y)
  {
    comp := {root};
    ConnectedRefl(es, root);
    while exists e | e in es :: (e.0 in comp) != (e.1 in comp)
      invariant root in comp && AllNodes(es, comp)
      invariant forall y {:trigger Connected(es, root, y)} | y in comp :: Connected(es, root, y)
      decreases Nodes(es) - comp
    {
      var e :| e in es && (e.0 in comp) != (e.1 in comp);
      var (inside, outside) := if e.0 in comp then (e.0, e.1) else (e.1, e.0);
      ConnectedStep(es, inside, outside);
      ConnectedTrans(es, root, inside, outside);
      comp := comp + {outside};
    }
  }

  // The loop state of `Components`: whole components found so far, none of them touching the
  // nodes still to visit, and every visited node in one of them.
  ghost predicate PartialPartition(es: set<Edge>, blocks: seq<set<string>>, unvisited: set<string>) {
    AllNodes(es, unvisited)
    && BlocksClosed(es, blocks)
    && BlocksConnected(es, blocks)
    && BlocksDisjoint(blocks)
    && (forall k | 0 <= k < |blocks| :: blocks[k] !! unvisited)
    && (forall x | x in Nodes(es) && x !in unvisited :: exists k | 0 <= k < |blocks| :: x in blocks[k])
  }

  // Adding the component of an unvisited node keeps the loop state.
  lemma PartialPartitionExtend(es: set<Edge>, blocks: seq<set<string>>, unvisited: set<string>,
                               root: string, comp: set<string>)
    requires PartialPartition(es, blocks, unvisited) && root in unvisited
    requires root in comp && AllNodes(es, comp) && Closed(es, comp)
    requires forall y {:trigger Connected(es, root, y)} | y in comp :: Connected(es, root, y)
    ensures PartialPartition(es, blocks + [comp], unvisited - comp)
  {
    var blocks' := blocks + [comp];
    forall k | 0 <= k < |blocks| ensures blocks[k] !! comp {
      forall y | y in comp ensures y !in blocks[k] {
        if y in blocks[k] {
          ConnectedSym(es, root, y);
          ClosedConnected(es, blocks[k], y, root);
        }
      }
    }
    forall k, a, b | 0 <= k < |blocks'| && a in blocks'[k] && b in blocks'[k]
      ensures Connected(es, a, b)
    {
      if k == |blocks| {
        ConnectedSym(es, root, a);
        ConnectedTrans(es, a, root, b);
      } else {
        assert blocks'[k] == blocks[k];
      }
    }
    forall x | x in Nodes(es) && x !in unvisited - comp
      ensures exists k | 0 <= k < |blocks'| :: x in blocks'[k]
    {
      if x in comp {
        assert blocks'[|blocks|] == comp;
      } else {
        var k :| 0 <= k < |blocks| && x in blocks[k];
        assert blocks'[k] == blocks[k];
      }
    }
  }

  // `nx.connected_components(G.to_undirected())`: the components, in an order the model leaves
  // open.
  method Components(es: set<Edge>) returns (blocks: seq<set<string>>)
    ensures IsComponentPartition(es, blocks)
  {
    blocks := [];
    var unvisited := Nodes(es);
    while unvisited != {}
      invariant PartialPartition(es, blocks, unvisited)
      decreases unvisited
    {
      var root :| root in unvisited;
      var comp := Component(es, root);
      PartialPartitionExtend(es, blocks, unvisited, root, comp);
      blocks := blocks + [comp];
      unvisited := unvisited - comp;
    }
  }

  // Some block holds `x`.
  ghost predicate InSomeBlock(blocks: seq<set<string>>, x: string, n: nat)
    requires n <= |blocks|
  {
    exists j | 0 <= j < n :: x in blocks[j]
  }

  // `subgraph_mapping`: dataset to component number.
  method NumberComponents(blocks: seq<set<string>>) returns (ids: map<string, nat>)
    ensures forall x :: x in ids <==> InSomeBlock(blocks, x, |blocks|)
    ensures forall x | x in ids :: ids[x] < |blocks| && x in blocks[ids[x]]
  {
    ids := map[];
    for k := 0 to |blocks|
      invariant forall x :: x in ids <==> InSomeBlock(blocks, x, k)
      invariant forall x | x in ids :: ids[x] < k && x in blocks[ids[x]]
    {
      var next := ids + map x | x in blocks[k] :: k;
      forall x ensures x in next <==> InSomeBlock(blocks, x, k + 1) {
        if x in blocks[k] {
          assert x in next;
        } else if InSomeBlock(blocks, x, k + 1) {
          var j :| 0 <= j < k + 1 && x in blocks[j];
          assert j < k;
        }
      }
      ids := next;
    }
  }

  // Two datasets of the graph get the same number exactly when they are joined, direction
  // ignored; the numbers are 0, 1, ..., one per component, none left unused.
  ghost predicate IsComponentNumbering(es: set<Edge>, ids: map<string, nat>) {
    (forall x :: x in ids <==> x in Nodes(es))
    && (forall a, b | a in ids && b in ids :: ids[a] == ids[b] <==> Connected(es, a, b))
    && (forall n: nat :: n in ids.Values <==> n < |ids.Values|)
  }

  lemma NumberingCorrect(es: set<Edge>, blocks: seq<set<string>>, ids: map<string, nat>)
    requires IsComponentPartition(es, blocks)
    requires forall x :: x in ids <==> InSomeBlock(blocks, x, |blocks|)
    requires forall x | x in ids :: ids[x] < |blocks| && x in blocks[ids[x]]
    ensures IsComponentNumbering(es, ids)
  {
    forall x ensures x in ids <==> x in Nodes(es) {
      if x in ids {
        assert x in blocks[ids[x]];
      }
    }
    forall a, b | a in ids && b in ids ensures ids[a] == ids[b] <==> Connected(es, a, b) {
      SameBlockIffConnected(es, blocks, ids[a], ids[b], a, b);
    }
    ValuesAreRange(blocks, ids);
  }

  lemma SameBlockIffConnected(es: set<Edge>, blocks: seq<set<string>>, i: nat, j: nat, a: string, b: string)
    requires BlocksClosed(es, blocks) && BlocksConnected(es, blocks) && BlocksDisjoint(blocks)
    requires i < |blocks| && j < |blocks| && a in blocks[i] && b in blocks[j]
    ensures i == j <==> Connected(es, a, b)
  {
    if Connected(es, a, b) {
      ClosedConnected(es, blocks[i], a, b);
    }
  }

  lemma ValuesAreRange(blocks: seq<set<string>>, ids: map<string, nat>)
    requires forall k | 0 <= k < |blocks| :: blocks[k] != {}
    requires BlocksDisjoint(blocks)
    requires forall x :: x in ids <==> InSomeBlock(blocks, x, |blocks|)
    requires forall x | x in ids :: ids[x] < |blocks| && x in blocks[ids[x]]
    ensures ids.Values == Range(|blocks|)
  {
    forall k: nat | k < |blocks| ensures k in ids.Values {
      var x :| x in blocks[k];
      assert InSomeBlock(blocks, x, |blocks|);
    }
  }

  // The numbers below `n`.
  function Range(n: nat): (r: set<nat>)
    ensures forall k: nat :: k in r <==> k < n
    ensures |r| == n
  {
    if n == 0 then {} else Range(n - 1) + {n - 1}
  }

  // ---------------------------------------------------------------- labelling the runs

  // The datasets of a run: `set(run["inputs"]) | set(run["outputs"])`.
  function Related(r: Run): set<string> {
    ToSet(r.inputs) + ToSet(r.outputs)
  }

  // The label a run may get from `next(...)` over its datasets: `None` when none of them is
  // numbered, otherwise the number of one of them.
  ghost predicate LabelledFrom(r: Run, r': Run, ids: map<string, nat>) {
    r' == r.(subGraph := r'.subGraph)
    && r'.subGraph.Some?
    && (r'.subGraph.value == NoGraph <==> forall ds | ds in Related(r) :: ds !in ids)
    && (r'.subGraph.value.Graph? ==>
          exists ds | ds in Related(r) && ds in ids :: ids[ds] == r'.subGraph.value.id)
  }

  lemma GraphEdgesStep(runs: seq<Run>, i: nat)
    requires i < |runs|
    ensures GraphEdges(runs[..i + 1]) == GraphEdges(runs[..i]) + RunEdges(runs[i])
  {
    assert runs[..i + 1][..i] == runs[..i];
  }

  // The graph: `G.add_edge(input_ds, output_ds)` for every input and output of every run.
  method BuildGraph(runs: seq<Run>) returns (es: set<Edge>)
    ensures es == GraphEdges(runs)
  {
    es := {};
    for i := 0 to |runs|
      invariant es == GraphEdges(runs[..i])
    {
      GraphEdgesStep(runs, i);
      es := es + RunEdges(runs[i]);
    }
    assert runs[..|runs|] == runs;
  }

  // The label of one run: the number of the first of its datasets the loop meets in the
  // mapping, or `None`.
  method LabelRun(run: Run, mapping: map<string, nat>) returns (r': Run)
    ensures LabelledFrom(run, r', mapping)
  {
    var related := ToSet(run.inputs) + ToSet(run.outputs);
    var id: SubGraphId;
    if exists ds | ds in related :: ds in mapping {
      var ds :| ds in related && ds in mapping;
      id := Graph(mapping[ds]);
    } else {
      id := NoGraph;
    }
    r' := run.(subGraph := Some(id));
  }

  // `assign_subgraph_ids`: every run gets a `sub_graph_id`, taken from a numbering of the
  // components of the graph its runs build.
  method AssignSubgraphIds(runs: seq<Run>) returns (result: seq<Run>, ghost ids: map<string, nat>)
    ensures IsComponentNumbering(GraphEdges(runs), ids)
    ensures |result| == |runs|
    ensures forall k | 0 <= k < |runs| :: LabelledFrom(runs[k], result[k], ids)
  {
    var es := BuildGraph(runs);
    var blocks := Components(es);
    var mapping := NumberComponents(blocks);
    NumberingCorrect(es, blocks, mapping);
    ids := mapping;
    result := [];
    for i := 0 to |runs|
      invariant |result| == i
      invariant forall k | 0 <= k < i :: LabelledFrom(runs[k], result[k], mapping)
    {
      var r' := LabelRun(runs[i], mapping);
      result := result + [r'];
    }
  }

  // ---------------------------------------------------------------- consequences

  lemma {:induction false} RunEdgesInGraph(runs: seq<Run>, k: nat)
    requires k < |runs|
    ensures RunEdges(runs[k]) <= GraphEdges(runs)
    decreases |runs|
  {
    var n := |runs| - 1;
    if k < n {
      assert runs[..n][k] == runs[k];
      RunEdgesInGraph(runs[..n], k);
    }
  }

  // A run with an input and an output has all its datasets in one component, so it gets that
  // component's number and never `None`.
  lemma FullRunLabelled(runs: seq<Run>, k: nat, r': Run, ids: map<string, nat>)
    requires k < |runs| && runs[k].inputs != [] && runs[k].outputs != []
    requires IsComponentNumbering(GraphEdges(runs), ids)
    requires LabelledFrom(runs[k], r', ids)
    ensures forall ds | ds in Related(runs[k]) :: ds in ids && r'.subGraph == Some(Graph(ids[ds]))
  {
    var r, es := runs[k], GraphEdges(runs);
    RunEdgesInGraph(runs, k);
    var i0, o0 := r.inputs[0], r.outputs[0];
    assert (i0, o0) in RunEdges(r);
    forall ds | ds in Related(r) ensures ds in Nodes(es) && Connected(es, i0, ds) {
      if ds in r.inputs {
        assert (ds, o0) in RunEdges(r);
        ConnectedStep(es, i0, o0);
        ConnectedStep(es, o0, ds);
        ConnectedTrans(es, i0, o0, ds);
      } else {
        assert (i0, ds) in RunEdges(r);
        ConnectedStep(es, i0, ds);
      }
    }
    assert i0 in Related(r);
    var ds0 :| ds0 in Related(r) && ds0 in ids && ids[ds0] == r'.subGraph.value.id;
    forall ds | ds in Related(r) ensures ds in ids && r'.subGraph == Some(Graph(ids[ds])) {
      ConnectedSym(es, i0, ds0);
      ConnectedTrans(es, ds0, i0, ds);
    }
  }

  // Two runs that each have an input and an output and share a dataset get the same number.
  lemma SharedDatasetSameLabel(runs: seq<Run>, j: nat, k: nat, rj: Run, rk: Run, ids: map<string, nat>, ds: string)
    requires j < |runs| && k < |runs|
    requires runs[j].inputs != [] && runs[j].outputs != [] && runs[k].inputs != [] && runs[k].outputs != []
    requires ds in Related(runs[j]) && ds in Related(runs[k])
    requires IsComponentNumbering(GraphEdges(runs), ids)
    requires LabelledFrom(runs[j], rj, ids) && LabelledFrom(runs[k], rk, ids)
    ensures rj.subGraph == rk.subGraph && rj.subGraph.value.Graph?
  {
    FullRunLabelled(runs, j, rj, ids);
    FullRunLabelled(runs, k, rk, ids);
  }
}
