// `get_metadata` and `get_metadata_network` of `StructuredSAS`: the sorted dataset and
// sub-graph lists, and the node and edge lists of the dataset network.
module Metadata {
  import opened Wrappers
  import opened Text
  import opened Runs
  import opened Subgraph

  // ---------------------------------------------------------------- flattening

  // Every run's inputs, run after run: `[item for sublist in ... for item in sublist]`.
  function AllInputs(runs: seq<Run>): (r: seq<string>)
    ensures forall x :: x in r <==> exists k | 0 <= k < |runs| :: x in runs[k].inputs
  {
    if |runs| == 0 then []
    else
      var init := runs[..|runs| - 1];
      var r := AllInputs(init) + runs[|runs| - 1].inputs;
      assert forall k | 0 <= k < |init| :: init[k] == runs[k];
      r
  }

  function AllOutputs(runs: seq<Run>): (r: seq<string>)
    ensures forall x :: x in r <==> exists k | 0 <= k < |runs| :: x in runs[k].outputs
  {
    if |runs| == 0 then []
    else
      var init := runs[..|runs| - 1];
      var r := AllOutputs(init) + runs[|runs| - 1].outputs;
      assert forall k | 0 <= k < |init| :: init[k] == runs[k];
      r
  }

  // ---------------------------------------------------------------- sorted, without repeats

  // Strictly ascending in Python's string order.
  predicate Increasing(xs: seq<string>) {
    forall i, j | 0 <= i < j < |xs| :: StrLess(xs[i], xs[j])
  }

  // Put `x` into its place in an ascending list, unless it is there already.
  function InsertName(xs: seq<string>, x: string): (r: seq<string>)
    requires Increasing(xs)
    ensures Increasing(r) && ToSet(r) == ToSet(xs) + {x}
  {
    if |xs| == 0 then [x]
    else if xs[0] == x then
      assert xs[0] in ToSet(xs);
      xs
    else if StrLess(x, xs[0]) then
      NameInFront(x, xs);
      [x] + xs
    else
      StrLessTotal(x, xs[0]);
      var tail := InsertName(xs[1..], x);
      NameBehindHead(xs, x, tail);
      [xs[0]] + tail
  }

  lemma NameInFront(x: string, xs: seq<string>)
    requires Increasing(xs) && |xs| > 0 && StrLess(x, xs[0])
    ensures Increasing([x] + xs) && ToSet([x] + xs) == ToSet(xs) + {x}
  {
    var r := [x] + xs;
    forall i, j | 0 <= i < j < |r| ensures StrLess(r[i], r[j]) {
      assert r[j] == xs[j - 1];
      if i == 0 {
        if j > 1 {
          StrLessTransitive(x, xs[0], xs[j - 1]);
        }
      } else {
        assert r[i] == xs[i - 1];
      }
    }
    assert ToSet(r) == {x} + ToSet(xs);
  }

  lemma NameBehindHead(xs: seq<string>, x: string, tail: seq<string>)
    requires Increasing(xs) && |xs| > 0 && StrLess(xs[0], x)
    requires Increasing(tail) && ToSet(tail) == ToSet(xs[1..]) + {x}
    ensures Increasing([xs[0]] + tail) && ToSet([xs[0]] + tail) == ToSet(xs) + {x}
  {
    assert ToSet(xs) == {xs[0]} + ToSet(xs[1..]) by { assert xs == [xs[0]] + xs[1..]; }
    NameBehindHeadTail(xs, x, tail);
    var r := [xs[0]] + tail;
    forall i, j | 0 <= i < j < |r| ensures StrLess(r[i], r[j]) {
      assert r[j] == tail[j - 1] && tail[j - 1] in tail;
      if i > 0 {
        assert r[i] == tail[i - 1];
      }
    }
    assert ToSet(r) == {xs[0]} + ToSet(tail);
  }

  lemma NameBehindHeadTail(xs: seq<string>, x: string, tail: seq<string>)
    requires Increasing(xs) && |xs| > 0 && StrLess(xs[0], x)
    requires ToSet(tail) == ToSet(xs[1..]) + {x}
    ensures forall y | y in tail :: StrLess(xs[0], y)
  {
    forall y | y in tail ensures StrLess(xs[0], y) {
      assert y in ToSet(tail);
      if y != x {
        var j :| 0 <= j < |xs[1..]| && xs[1..][j] == y;
        assert xs[j + 1] == y;
      }
    }
  }

  // `list(set(xs))` followed by `.sort()`.
  function SortedUnique(xs: seq<string>): (r: seq<string>)
    ensures Increasing(r) && ToSet(r) == ToSet(xs)
  {
    if |xs| == 0 then []
    else
      var init := xs[..|xs| - 1];
      assert xs == init + [xs[|xs| - 1]];
      assert ToSet(xs) == ToSet(init) + {xs[|xs| - 1]};
      InsertName(SortedUnique(init), xs[|xs| - 1])
  }

  lemma IncreasingNoDups(xs: seq<string>)
    requires Increasing(xs)
    ensures NoDups(xs)
  {
    forall i, j | 0 <= i < j < |xs| ensures xs[i] != xs[j] {
      if xs[i] == xs[j] {
        StrLessIrreflexive(xs[i]);
      }
    }
  }

  // An ascending list is fixed by its elements: whatever order the set handed them over in,
  // the sorted list is the same.
  lemma {:induction false} IncreasingUnique(a: seq<string>, b: seq<string>)
    requires Increasing(a) && Increasing(b) && ToSet(a) == ToSet(b)
    ensures a == b
    decreases |a|
  {
    ToSetEmpty(a);
    ToSetEmpty(b);
    if |a| > 0 && |b| > 0 {
      if a[0] != b[0] {
        assert a[0] in ToSet(b) && b[0] in ToSet(a);
        var i :| 0 <= i < |b| && b[i] == a[0];
        var j :| 0 <= j < |a| && a[j] == b[0];
        StrLessTransitive(a[0], a[j], a[0]);
        StrLessIrreflexive(a[0]);
      }
      IncreasingNoDups(a);
      IncreasingNoDups(b);
      forall x ensures x in ToSet(a[1..]) <==> x in ToSet(b[1..]) {
        if x in a[1..] {
          var i :| 0 <= i < |a[1..]| && a[1..][i] == x;
          assert a[i + 1] == x && x != a[0];
          assert x in ToSet(b);
          var j :| 0 <= j < |b| && b[j] == x;
          assert j > 0 && b[1..][j - 1] == x;
        }
        if x in b[1..] {
          var j :| 0 <= j < |b[1..]| && b[1..][j] == x;
          assert b[j + 1] == x && x != b[0];
          assert x in ToSet(a);
          var i :| 0 <= i < |a| && a[i] == x;
          assert i > 0 && a[1..][i - 1] == x;
        }
      }
      IncreasingUnique(a[1..], b[1..]);
    }
  }

  lemma ToSetEmpty(xs: seq<string>)
    ensures ToSet(xs) == {} <==> |xs| == 0
  {
    if |xs| > 0 {
      assert xs[0] in ToSet(xs);
    }
  }

  // `self.inputs`: the input names sorted, each once.
  function SortedInputs(runs: seq<Run>): (r: seq<string>)
    ensures Increasing(r) && NoDups(r)
    ensures forall x :: x in r <==> exists k | 0 <= k < |runs| :: x in runs[k].inputs
  {
    var r := SortedUnique(AllInputs(runs));
    IncreasingNoDups(r);
    assert forall x :: x in r <==> x in ToSet(AllInputs(runs));
    r
  }

  // `self.outputs`: the output names sorted, each once.
  function SortedOutputs(runs: seq<Run>): (r: seq<string>)
    ensures Increasing(r) && NoDups(r)
    ensures forall x :: x in r <==> exists k | 0 <= k < |runs| :: x in runs[k].outputs
  {
    var r := SortedUnique(AllOutputs(runs));
    IncreasingNoDups(r);
    assert forall x :: x in r <==> x in ToSet(AllOutputs(runs));
    r
  }

  // ---------------------------------------------------------------- sub-graph numbers

  // Why `get_metadata` stops: a record without `sub_graph_id` (`KeyError`), or `None` next to
  // a number, which `sort` cannot order (`TypeError`).
  datatype MetadataError = MissingSubgraph | UnorderableSubgraphs

  predicate AscendingIds(xs: seq<nat>) {
    forall i, j | 0 <= i < j < |xs| :: xs[i] < xs[j]
  }

  function InsertId(xs: seq<nat>, x: nat): (r: seq<nat>)
    requires AscendingIds(xs)
    ensures AscendingIds(r) && ToSet(r) == ToSet(xs) + {x}
  {
    if |xs| == 0 then [x]
    else if xs[0] == x then
      assert xs[0] in ToSet(xs);
      xs
    else if x < xs[0] then
      assert ToSet([x] + xs) == {x} + ToSet(xs);
      [x] + xs
    else
      var tail := InsertId(xs[1..], x);
      InsertIdBehindHead(xs, x, tail);
      [xs[0]] + tail
  }

  lemma InsertIdBehindHead(xs: seq<nat>, x: nat, tail: seq<nat>)
    requires AscendingIds(xs) && |xs| > 0 && xs[0] < x
    requires AscendingIds(tail) && ToSet(tail) == ToSet(xs[1..]) + {x}
    ensures AscendingIds([xs[0]] + tail) && ToSet([xs[0]] + tail) == ToSet(xs) + {x}
  {
    assert ToSet(xs) == {xs[0]} + ToSet(xs[1..]) by { assert xs == [xs[0]] + xs[1..]; }
    InsertIdBehindHeadTail(xs, x, tail);
    var r := [xs[0]] + tail;
    forall i, j | 0 <= i < j < |r| ensures r[i] < r[j] {
      assert r[j] == tail[j - 1] && tail[j - 1] in tail;
      if i > 0 {
        assert r[i] == tail[i - 1];
      }
    }
    assert ToSet(r) == {xs[0]} + ToSet(tail);
  }

  lemma InsertIdBehindHeadTail(xs: seq<nat>, x: nat, tail: seq<nat>)
    requires AscendingIds(xs) && |xs| > 0 && xs[0] < x
    requires ToSet(tail) == ToSet(xs[1..]) + {x}
    ensures forall y | y in tail :: xs[0] < y
  {
    forall y | y in tail ensures xs[0] < y {
      assert y in ToSet(tail);
      if y != x {
        var j :| 0 <= j < |xs[1..]| && xs[1..][j] == y;
        assert xs[j + 1] == y;
      }
    }
  }

  // The numbers of the runs labelled with one, sorted, each once.
  function SortedGraphIds(runs: seq<Run>): (r: seq<nat>)
    ensures AscendingIds(r)
    ensures forall n :: n in r <==> exists k | 0 <= k < |runs| :: runs[k].subGraph == Some(Graph(n))
  {
    if |runs| == 0 then []
    else
      var init, last := runs[..|runs| - 1], runs[|runs| - 1];
      var prev := SortedGraphIds(init);
      assert forall k | 0 <= k < |init| :: init[k] == runs[k];
      match last.subGraph
      case Some(Graph(n)) =>
        var r := InsertId(prev, n);
        assert forall m :: m in r <==> m in ToSet(prev) + {n};
        r
      case _ => prev
  }

  predicate HasNone(runs: seq<Run>) {
    exists k | 0 <= k < |runs| :: runs[k].subGraph == Some(NoGraph)
  }

  predicate HasNumber(runs: seq<Run>) {
    exists k | 0 <= k < |runs| :: runs[k].subGraph.Some? && runs[k].subGraph.value.Graph?
  }

  // The numbers as `SubGraphId` values, when every run has one.
  function NumberList(runs: seq<Run>): (r: seq<SubGraphId>)
    requires forall k | 0 <= k < |runs| :: runs[k].subGraph.Some? && runs[k].subGraph.value.Graph?
    ensures forall g :: g in r <==> exists k | 0 <= k < |runs| :: runs[k].subGraph == Some(g)
    ensures forall i, j | 0 <= i < j < |r| :: r[i].Graph? && r[j].Graph? && r[i].id < r[j].id
  {
    var ids := SortedGraphIds(runs);
    var r := seq(|ids|, i requires 0 <= i < |ids| => Graph(ids[i]));
    forall g | g in r ensures exists k | 0 <= k < |runs| :: runs[k].subGraph == Some(g) {
      var i :| 0 <= i < |r| && r[i] == g;
      assert ids[i] in ids;
    }
    forall g | exists k | 0 <= k < |runs| :: runs[k].subGraph == Some(g) ensures g in r {
      var k :| 0 <= k < |runs| && runs[k].subGraph == Some(g);
      assert g.id in ids;
      var i :| 0 <= i < |ids| && ids[i] == g.id;
      assert r[i] == g;
    }
    r
  }

  // `self.subgraphs`: the distinct `sub_graph_id` values, sorted.
  function SubgraphList(runs: seq<Run>): (r: Result<seq<SubGraphId>, MetadataError>)
    ensures r == Err(MissingSubgraph) <==> exists k | 0 <= k < |runs| :: runs[k].subGraph.None?
    ensures r == Err(UnorderableSubgraphs) <==>
      (forall k | 0 <= k < |runs| :: runs[k].subGraph.Some?) && HasNone(runs) && HasNumber(runs)
    ensures r.Ok? ==>
      (forall g :: g in r.value <==> exists k | 0 <= k < |runs| :: runs[k].subGraph == Some(g))
    ensures r.Ok? ==> (|r.value| <= 1 ||
      forall i, j | 0 <= i < j < |r.value| :: r.value[i].Graph? && r.value[j].Graph? && r.value[i].id < r.value[j].id)
  {
    if exists k | 0 <= k < |runs| :: runs[k].subGraph.None? then Err(MissingSubgraph)
    else if HasNone(runs) && HasNumber(runs) then Err(UnorderableSubgraphs)
    else if HasNone(runs) then
      assert forall k | 0 <= k < |runs| :: runs[k].subGraph == Some(NoGraph);
      Ok([NoGraph])
    else Ok(NumberList(runs))
  }

  // Once every record has its id, the only failure left is the mix of `None` and numbers.
  lemma SubgraphListLabelled(runs: seq<Run>)
    requires forall k | 0 <= k < |runs| :: runs[k].subGraph.Some?
    ensures SubgraphList(runs).Err? ==> SubgraphList(runs).error == UnorderableSubgraphs
  {
  }

  // A run that reads a dataset no other run touches is labelled `None`; beside any run with a
  // number this makes `get_metadata` fail.
  lemma MixedSubgraphsFail(runs: seq<Run>)
    requires runs == [Run(0, 0, "a", ["x"], [], Some(NoGraph)), Run(0, 2, "b", ["y"], ["z"], Some(Graph(0)))]
    ensures SubgraphList(runs) == Err(UnorderableSubgraphs)
  {
    assert runs[0].subGraph == Some(NoGraph);
    assert runs[1].subGraph.value.Graph?;
  }

  // ---------------------------------------------------------------- network

  // The pairs `(inp, out)` with `out` from `outs`, `inp != out`, in order.
  function Row(inp: string, outs: seq<string>): (r: seq<Edge>)
    ensures forall e :: e in r <==> e.0 == inp && e.1 in outs && e.0 != e.1
  {
    if |outs| == 0 then []
    else
      var init := outs[..|outs| - 1];
      var last := outs[|outs| - 1];
      assert outs == init + [last];
      Row(inp, init) + (if inp != last then [(inp, last)] else [])
  }

  // The generator of `get_sub_edges`: for each input, for each output, the pair unless the two
  // names are equal.
  function Pairs(ins: seq<string>, outs: seq<string>): (r: seq<Edge>)
    ensures forall e :: e in r <==> e.0 in ins && e.1 in outs && e.0 != e.1
  {
    if |ins| == 0 then []
    else
      var init := ins[..|ins| - 1];
      var last := ins[|ins| - 1];
      assert ins == init + [last];
      Pairs(init, outs) + Row(last, outs)
  }

  // `get_sub_edges`: the pairs without repeats, first occurrence kept.
  function SubEdges(ins: seq<string>, outs: seq<string>): (r: seq<Edge>)
    ensures NoDups(r)
    ensures forall e | e in r :: e.0 != e.1
    ensures forall e :: e in r <==> e.0 in ins && e.1 in outs && e.0 != e.1
  {
    var r := Dedup(Pairs(ins, outs));
    assert forall e :: e in r <==> e in ToSet(Pairs(ins, outs));
    r
  }

  // `get_edges`: the edges of every run, one run after another. Repeats across runs stay.
  function NetworkEdges(runs: seq<Run>): seq<Edge> {
    if |runs| == 0 then []
    else NetworkEdges(runs[..|runs| - 1]) + SubEdges(runs[|runs| - 1].inputs, runs[|runs| - 1].outputs)
  }

  // Every edge is an input-to-output pair of some run, and every such pair of distinct names is
  // there.
  lemma {:induction false} NetworkEdgesMembers(runs: seq<Run>)
    ensures forall e :: e in NetworkEdges(runs) <==>
      exists k | 0 <= k < |runs| :: e.0 in runs[k].inputs && e.1 in runs[k].outputs && e.0 != e.1
  {
    if |runs| > 0 {
      var init := runs[..|runs| - 1];
      NetworkEdgesMembers(init);
      assert forall k | 0 <= k < |init| :: init[k] == runs[k];
    }
  }

  // Each run contributes its own deduplicated pairs, so the length is the sum of theirs.
  function EdgeCount(runs: seq<Run>): nat {
    if |runs| == 0 then 0
    else EdgeCount(runs[..|runs| - 1]) + |SubEdges(runs[|runs| - 1].inputs, runs[|runs| - 1].outputs)|
  }

  lemma {:induction false} NetworkEdgesCount(runs: seq<Run>)
    ensures |NetworkEdges(runs)| == EdgeCount(runs)
  {
    if |runs| > 0 {
      NetworkEdgesCount(runs[..|runs| - 1]);
    }
  }

  lemma SubEdgesSingle(a: string, b: string)
    requires a != b
    ensures SubEdges([a], [b]) == [(a, b)]
  {
    assert [a][..0] == [] && [b][..0] == [];
    assert Row(a, [b]) == [(a, b)];
    assert Pairs([a], [b]) == [(a, b)];
    assert [(a, b)][..0] == [];
  }

  lemma NetworkEdgesSnoc(runs: seq<Run>, r: Run)
    ensures NetworkEdges(runs + [r]) == NetworkEdges(runs) + SubEdges(r.inputs, r.outputs)
  {
    assert (runs + [r])[..|runs|] == runs;
  }

  // Two runs that both read `a` and write `b` give the edge `(a, b)` twice.
  lemma NetworkEdgesKeepRepeats(a: string, b: string, r0: Run, r1: Run)
    requires a != b
    requires r0.inputs == [a] && r0.outputs == [b] && r1.inputs == [a] && r1.outputs == [b]
    ensures NetworkEdges([r0, r1]) == [(a, b), (a, b)]
  {
    NetworkEdgesTwo(r0, r1);
    SubEdgesSingle(a, b);
  }

  lemma NetworkEdgesTwo(r0: Run, r1: Run)
    ensures NetworkEdges([r0, r1]) == SubEdges(r0.inputs, r0.outputs) + SubEdges(r1.inputs, r1.outputs)
  {
    var e0 := SubEdges(r0.inputs, r0.outputs);
    assert [r0][..0] == [];
    assert NetworkEdges([r0]) == [] + e0;
    assert [] + e0 == e0;
    assert [r0, r1][..1] == [r0];
  }

  // `get_edges`: `edges.extend(get_sub_edges(...))` for each run.
  method GetEdges(runs: seq<Run>) returns (edges: seq<Edge>)
    ensures edges == NetworkEdges(runs)
  {
    edges := [];
    for i := 0 to |runs|
      invariant edges == NetworkEdges(runs[..i])
    {
      assert runs[..i + 1][..i] == runs[..i];
      edges := edges + SubEdges(runs[i].inputs, runs[i].outputs);
    }
    assert runs[..|runs|] == runs;
  }

  // `get_nodes`: `list(set(self.inputs + self.outputs))`, in an order the model leaves open.
  method GetNodes(inputs: seq<string>, outputs: seq<string>) returns (nodes: seq<string>)
    ensures NoDups(nodes)
    ensures forall x :: x in nodes <==> x in inputs || x in outputs
  {
    nodes := SetToList(ToSet(inputs + outputs));
    assert forall x :: x in nodes <==> x in ToSet(nodes);
  }

  // With the lists that `get_metadata` stores, every edge's ends are among the nodes.
  lemma EdgeEndsAreNodes(runs: seq<Run>, nodes: seq<string>)
    requires forall x :: x in nodes <==> x in SortedInputs(runs) || x in SortedOutputs(runs)
    ensures forall e | e in NetworkEdges(runs) :: e.0 in nodes && e.1 in nodes
  {
    NetworkEdgesMembers(runs);
  }
}
