/** The Mermaid flowchart text built from the processed run records: every run becomes a
    process node, every dataset name an input or output node, the nodes are grouped into one
    `subgraph` block per sub-graph id, the blocks are chained top to bottom, and each run is
    linked from its inputs and to its outputs. */
module Mermaid {
  import opened Wrappers
  import opened Text
  import opened Runs
  import opened Metadata

  // A node declaration `(node id, label)` or a link `(source id, target id)`.
  type Pair = (string, string)

  const Header: string := "flowchart TB\n"

  const Footer: string :=
    "\nclassDef input_output fill:#90EE90,stroke:#000,stroke-width:1px;\n"
    + "classDef run_code fill:#ADD8E6,stroke:#000,stroke-width:1px;\n"

  // The records the generator accepts: each one has its `sub_graph_id` key.
  predicate AllCharted(data: seq<Run>) {
    forall k | 0 <= k < |data| :: data[k].subGraph.Some?
  }

  /** The process node of the run at position `idx`. */
  function ProcId(idx: nat): string {
    "proc_" + NatToString(idx)
  }

  /** `f"Chart{sub_graph_id}"`, where `None` prints as `None`. */
  function ChartName(g: SubGraphId): string {
    match g
    case NoGraph => "ChartNone"
    case Graph(n) => "Chart" + NatToString(n)
  }

  /** The label of a process node: the run's code with every newline turned into a space. */
  function NodeLabel(code: string): (r: string)
    ensures '\n' !in r
    ensures forall c | c in r :: c in code || c == ' '
  {
    ReplaceAll(code, "\n", " ")
  }

  lemma PrefixCancel(p: string, a: string, b: string)
    requires p + a == p + b
    ensures a == b
  {
    assert a == (p + a)[|p|..];
    assert b == (p + b)[|p|..];
  }

  // Distinct runs get distinct process nodes.
  lemma ProcIdInjective(i: nat, j: nat)
    requires ProcId(i) == ProcId(j)
    ensures i == j
  {
    PrefixCancel("proc_", NatToString(i), NatToString(j));
    NatToStringInjective(i, j);
  }

  lemma NatToStringNotNone(n: nat)
    ensures NatToString(n) != "None"
  {
    assert IsDigit(NatToString(n)[0]);
  }

  // Distinct sub-graph ids get distinct blocks.
  lemma ChartNameInjective(g: SubGraphId, h: SubGraphId)
    requires ChartName(g) == ChartName(h)
    ensures g == h
  {
    if g.Graph? {
      NatToStringNotNone(g.id);
    }
    if h.Graph? {
      NatToStringNotNone(h.id);
    }
    var a := if g.Graph? then NatToString(g.id) else "None";
    var b := if h.Graph? then NatToString(h.id) else "None";
    PrefixCancel("Chart", a, b);
    if g.Graph? && h.Graph? {
      NatToStringInjective(g.id, h.id);
    }
  }

  // ---------------------------------------------------------------------------------------
  // Node ids: a name gets `prefix + str(len(ids))` the first time it is seen.

  function Assign(ids: map<string, string>, name: string, prefix: string): map<string, string> {
    if name in ids then ids else ids[name := prefix + NatToString(|ids|)]
  }

  function Ids(names: seq<string>, prefix: string): (m: map<string, string>)
    ensures m.Keys == ToSet(names)
  {
    if |names| == 0 then map[]
    else
      var init := names[..|names| - 1];
      assert names == init + [names[|names| - 1]];
      assert ToSet(names) == ToSet(init) + {names[|names| - 1]};
      Assign(Ids(init, prefix), names[|names| - 1], prefix)
  }

  lemma {:induction false} NoDupsCard<T>(xs: seq<T>)
    requires NoDups(xs)
    ensures |ToSet(xs)| == |xs|
  {
    if |xs| > 0 {
      var init := xs[..|xs| - 1];
      assert xs == init + [xs[|xs| - 1]];
      assert ToSet(xs) == ToSet(init) + {xs[|xs| - 1]};
      NoDupsCard(init);
    }
  }

  // The names are numbered 0, 1, 2, ... in the order in which they first occur.
  lemma {:induction false} IdsFirstSeen(names: seq<string>, prefix: string)
    ensures forall i | 0 <= i < |Dedup(names)| ::
      Ids(names, prefix)[Dedup(names)[i]] == prefix + NatToString(i)
  {
    if |names| > 0 {
      var init, last := names[..|names| - 1], names[|names| - 1];
      IdsFirstSeen(init, prefix);
      var m, d := Ids(init, prefix), Dedup(init);
      assert Ids(names, prefix) == Assign(m, last, prefix);
      if last in d {
        assert last in ToSet(d);
        assert Dedup(names) == d && Ids(names, prefix) == m;
      } else {
        assert Dedup(names) == d + [last];
        NoDupsCard(d);
        assert |m| == |m.Keys| == |ToSet(d)| == |d|;
        var m' := m[last := prefix + NatToString(|d|)];
        assert Ids(names, prefix) == m';
        forall i | 0 <= i < |d| + 1
          ensures m'[(d + [last])[i]] == prefix + NatToString(i)
        {
          if i < |d| {
            assert (d + [last])[i] == d[i] != last;
          }
        }
      }
    }
  }

  // Distinct names get distinct ids.
  lemma IdsInjective(names: seq<string>, prefix: string, a: string, b: string)
    requires a in Ids(names, prefix) && b in Ids(names, prefix) && a != b
    ensures Ids(names, prefix)[a] != Ids(names, prefix)[b]
  {
    var d := Dedup(names);
    IdsFirstSeen(names, prefix);
    assert a in ToSet(d) && b in ToSet(d);
    var i :| 0 <= i < |d| && d[i] == a;
    var j :| 0 <= j < |d| && d[j] == b;
    if Ids(names, prefix)[a] == Ids(names, prefix)[b] {
      PrefixCancel(prefix, NatToString(i), NatToString(j));
      NatToStringInjective(i, j);
    }
  }

  // Numbering more names leaves the ids already given unchanged.
  lemma {:induction false} IdsExtend(names: seq<string>, more: seq<string>, prefix: string)
    ensures forall x | x in Ids(names, prefix) ::
      x in Ids(names + more, prefix) && Ids(names + more, prefix)[x] == Ids(names, prefix)[x]
    decreases |more|
  {
    if |more| == 0 {
      assert names + more == names;
    } else {
      var init := more[..|more| - 1];
      IdsExtend(names, init, prefix);
      assert (names + more)[..|names + more| - 1] == names + init;
    }
  }

  lemma IdsSnoc(names: seq<string>, x: string, prefix: string)
    ensures Ids(names + [x], prefix) == Assign(Ids(names, prefix), x, prefix)
  {
    assert (names + [x])[..|names|] == names;
  }

  lemma IdsStepAt(pre: seq<string>, xs: seq<string>, j: nat, prefix: string)
    requires j < |xs|
    ensures Ids(pre + xs[..j + 1], prefix) == Assign(Ids(pre + xs[..j], prefix), xs[j], prefix)
  {
    assert pre + xs[..j + 1] == (pre + xs[..j]) + [xs[j]];
    IdsSnoc(pre + xs[..j], xs[j], prefix);
  }

  lemma IdsSettled(pre: seq<string>, xs: seq<string>, j: nat, prefix: string)
    requires j < |xs|
    ensures xs[j] in Ids(pre + xs[..j + 1], prefix)
    ensures Ids(pre + xs[..j + 1], prefix)[xs[j]] == Ids(pre + xs, prefix)[xs[j]]
  {
    assert xs[j] in ToSet(pre + xs[..j + 1]);
    IdsExtend(pre + xs[..j + 1], xs[j + 1..], prefix);
    assert pre + xs[..j + 1] + xs[j + 1..] == pre + xs;
  }

  function InIds(data: seq<Run>): map<string, string> {
    Ids(AllInputs(data), "input_")
  }

  function OutIds(data: seq<Run>): map<string, string> {
    Ids(AllOutputs(data), "output_")
  }

  lemma AllNamesSnoc(data: seq<Run>, idx: nat)
    requires idx < |data|
    ensures AllInputs(data[..idx + 1]) == AllInputs(data[..idx]) + data[idx].inputs
    ensures AllOutputs(data[..idx + 1]) == AllOutputs(data[..idx]) + data[idx].outputs
  {
    assert data[..idx + 1][..idx] == data[..idx];
  }

  // Numbering the last record's names leaves the ids of the earlier records unchanged.
  lemma IdsOfInit(data: seq<Run>)
    requires |data| > 0
    ensures var init := data[..|data| - 1];
      forall x | x in InIds(init) :: x in InIds(data) && InIds(data)[x] == InIds(init)[x]
    ensures var init := data[..|data| - 1];
      forall x | x in OutIds(init) :: x in OutIds(data) && OutIds(data)[x] == OutIds(init)[x]
  {
    var n := |data| - 1;
    assert data[..n + 1] == data;
    AllNamesSnoc(data, n);
    IdsExtend(AllInputs(data[..n]), data[n].inputs, "input_");
    IdsExtend(AllOutputs(data[..n]), data[n].outputs, "output_");
  }

  // ---------------------------------------------------------------------------------------
  // Links and declarations of one record.

  // `(ids[x], proc)` for each input `x`, in order.
  function LinksFrom(ids: map<string, string>, xs: seq<string>, proc: string): (r: seq<Pair>)
    requires forall x | x in xs :: x in ids
    ensures |r| == |xs|
    ensures forall k | 0 <= k < |xs| :: r[k] == (ids[xs[k]], proc)
  {
    if |xs| == 0 then [] else LinksFrom(ids, xs[..|xs| - 1], proc) + [(ids[xs[|xs| - 1]], proc)]
  }

  // `(proc, ids[y])` for each output `y`, in order.
  function LinksTo(proc: string, ids: map<string, string>, ys: seq<string>): (r: seq<Pair>)
    requires forall y | y in ys :: y in ids
    ensures |r| == |ys|
    ensures forall k | 0 <= k < |ys| :: r[k] == (proc, ids[ys[k]])
  {
    if |ys| == 0 then [] else LinksTo(proc, ids, ys[..|ys| - 1]) + [(proc, ids[ys[|ys| - 1]])]
  }

  // The declarations `(ids[x], x)` of the names `xs`.
  function Decls(ids: map<string, string>, xs: seq<string>): set<Pair>
    requires forall x | x in xs :: x in ids
  {
    if |xs| == 0 then {} else Decls(ids, xs[..|xs| - 1]) + {(ids[xs[|xs| - 1]], xs[|xs| - 1])}
  }

  // A declaration is in `Decls(ids, xs)` exactly when it pairs a name of `xs` with its id.
  lemma {:induction false} DeclsMembers(ids: map<string, string>, xs: seq<string>, p: Pair)
    requires forall x | x in xs :: x in ids
    ensures p in Decls(ids, xs) <==> p.1 in xs && p.0 == ids[p.1]
  {
    if |xs| > 0 {
      var init := xs[..|xs| - 1];
      assert xs == init + [xs[|xs| - 1]];
      DeclsMembers(ids, init, p);
    }
  }

  lemma EntryNamesNumbered(data: seq<Run>)
    requires |data| > 0
    ensures forall x | x in data[|data| - 1].inputs :: x in InIds(data)
    ensures forall y | y in data[|data| - 1].outputs :: y in OutIds(data)
  {
    AllNamesSnoc(data, |data| - 1);
    assert data[..|data|] == data;
    forall x | x in data[|data| - 1].inputs ensures x in InIds(data) {
      assert x in ToSet(AllInputs(data));
    }
    forall y | y in data[|data| - 1].outputs ensures y in OutIds(data) {
      assert y in ToSet(AllOutputs(data));
    }
  }

  // The links added for the last record, with the ids as they stand once its names are
  // numbered.
  function EntryLinks(data: seq<Run>): seq<Pair>
    requires |data| > 0
  {
    EntryNamesNumbered(data);
    var e, proc := data[|data| - 1], ProcId(|data| - 1);
    LinksFrom(InIds(data), e.inputs, proc) + LinksTo(proc, OutIds(data), e.outputs)
  }

  // The declarations the last record adds to its block.
  function EntryDecls(data: seq<Run>): set<Pair>
    requires |data| > 0
  {
    EntryNamesNumbered(data);
    var e := data[|data| - 1];
    Decls(InIds(data), e.inputs) + Decls(OutIds(data), e.outputs)
      + {(ProcId(|data| - 1), NodeLabel(e.code))}
  }

  // ---------------------------------------------------------------------------------------
  // What the records add up to.

  /** All links, record by record: a record's inputs first, then its outputs. */
  function Links(data: seq<Run>): seq<Pair> {
    if |data| == 0 then [] else Links(data[..|data| - 1]) + EntryLinks(data)
  }

  function ChartNames(data: seq<Run>): (r: seq<string>)
    requires AllCharted(data)
    ensures |r| == |data|
    ensures forall k | 0 <= k < |data| :: r[k] == ChartName(data[k].subGraph.value)
  {
    if |data| == 0 then []
    else ChartNames(data[..|data| - 1]) + [ChartName(data[|data| - 1].subGraph.value)]
  }

  /** The blocks in the order the defaultdict first sees their names. */
  function ChartKeys(data: seq<Run>): seq<string>
    requires AllCharted(data)
  {
    Dedup(ChartNames(data))
  }

  /** The set of declarations of each block. */
  function Clusters(data: seq<Run>): (m: map<string, set<Pair>>)
    requires AllCharted(data)
    ensures m.Keys == ToSet(ChartNames(data))
  {
    if |data| == 0 then map[]
    else
      var init := data[..|data| - 1];
      var m, key := Clusters(init), ChartName(data[|data| - 1].subGraph.value);
      assert ChartNames(data) == ChartNames(init) + [key];
      assert ToSet(ChartNames(data)) == ToSet(ChartNames(init)) + {key};
      AddCluster(m, key, EntryDecls(data))
  }

  // `clusters[key].update(decls)` on a defaultdict of sets.
  function AddCluster(m: map<string, set<Pair>>, key: string, decls: set<Pair>): (m': map<string, set<Pair>>)
    ensures m'.Keys == m.Keys + {key}
    ensures decls <= m'[key]
    ensures forall k | k in m :: m[k] <= m'[k]
  {
    m[key := (if key in m then m[key] else {}) + decls]
  }

  lemma LinksSnoc(data: seq<Run>, idx: nat)
    requires idx < |data|
    ensures forall x | x in data[idx].inputs :: x in InIds(data[..idx + 1])
    ensures forall y | y in data[idx].outputs :: y in OutIds(data[..idx + 1])
    ensures Links(data[..idx + 1]) == Links(data[..idx])
      + LinksFrom(InIds(data[..idx + 1]), data[idx].inputs, ProcId(idx))
      + LinksTo(ProcId(idx), OutIds(data[..idx + 1]), data[idx].outputs)
  {
    var now := data[..idx + 1];
    assert now[..idx] == data[..idx] && now[idx] == data[idx];
    EntryNamesNumbered(now);
    var ins := LinksFrom(InIds(now), data[idx].inputs, ProcId(idx));
    var outs := LinksTo(ProcId(idx), OutIds(now), data[idx].outputs);
    assert EntryLinks(now) == ins + outs;
    assert Links(now) == Links(data[..idx]) + (ins + outs);
    ConcatAssoc(Links(data[..idx]), ins, outs);
  }

  lemma ConcatAssoc(a: seq<Pair>, b: seq<Pair>, c: seq<Pair>)
    ensures a + (b + c) == a + b + c
  {
  }

  lemma ClustersSnoc(data: seq<Run>, idx: nat)
    requires AllCharted(data) && idx < |data|
    ensures
      var c, key := Clusters(data[..idx]), ChartName(data[idx].subGraph.value);
      Clusters(data[..idx + 1]) == AddCluster(c, key, EntryDecls(data[..idx + 1]))
    ensures ChartNames(data[..idx + 1]) == ChartNames(data[..idx]) + [ChartName(data[idx].subGraph.value)]
  {
    var now := data[..idx + 1];
    assert now[..idx] == data[..idx] && now[idx] == data[idx];
    ClustersLast(now);
  }

  lemma UnionRegroup(base: set<Pair>, a: set<Pair>, b: set<Pair>, c: set<Pair>)
    ensures base + a + b + c == base + (a + b + c)
  {
  }

  lemma ChartKeysSnoc(data: seq<Run>, idx: nat)
    requires AllCharted(data) && idx < |data|
    ensures
      var chart := ChartName(data[idx].subGraph.value);
      ChartKeys(data[..idx + 1]) ==
        if chart in Clusters(data[..idx]) then ChartKeys(data[..idx]) else ChartKeys(data[..idx]) + [chart]
  {
    var chart := ChartName(data[idx].subGraph.value);
    var names := ChartNames(data[..idx]);
    ClustersSnoc(data, idx);
    assert (names + [chart])[..|names|] == names;
    assert chart in Clusters(data[..idx]) <==> chart in ToSet(Dedup(names));
  }

  lemma EntryDeclsAt(data: seq<Run>, idx: nat)
    requires idx < |data|
    ensures forall x | x in data[idx].inputs :: x in InIds(data[..idx + 1])
    ensures forall y | y in data[idx].outputs :: y in OutIds(data[..idx + 1])
    ensures EntryDecls(data[..idx + 1]) == Decls(InIds(data[..idx + 1]), data[idx].inputs)
      + Decls(OutIds(data[..idx + 1]), data[idx].outputs) + {(ProcId(idx), NodeLabel(data[idx].code))}
  {
    var now := data[..idx + 1];
    assert now[idx] == data[idx];
    EntryNamesNumbered(now);
  }

  lemma ClustersLast(data: seq<Run>)
    requires AllCharted(data) && |data| > 0
    ensures
      var c, key := Clusters(data[..|data| - 1]), ChartName(data[|data| - 1].subGraph.value);
      Clusters(data) == AddCluster(c, key, EntryDecls(data))
  {
    var init := data[..|data| - 1];
    assert forall k | 0 <= k < |init| :: init[k] == data[k];
    assert AllCharted(init);
  }

  // One link per input and per output of every record.
  lemma {:induction false} LinksCount(data: seq<Run>)
    ensures |Links(data)| == |AllInputs(data)| + |AllOutputs(data)|
  {
    if |data| > 0 {
      LinksCount(data[..|data| - 1]);
    }
  }

  // Every node a record's links mention is declared in the block of that record: its process
  // node, and the input and output nodes of its names under their final ids.
  lemma {:induction false} RecordDeclared(data: seq<Run>, i: nat)
    requires AllCharted(data) && i < |data|
    ensures
      var key := ChartName(data[i].subGraph.value);
      key in Clusters(data)
      && (ProcId(i), NodeLabel(data[i].code)) in Clusters(data)[key]
      && (forall x | x in data[i].inputs :: x in InIds(data) && (InIds(data)[x], x) in Clusters(data)[key])
      && (forall y | y in data[i].outputs :: y in OutIds(data) && (OutIds(data)[y], y) in Clusters(data)[key])
    decreases |data|
  {
    var n := |data| - 1;
    if i == n {
      RecordDeclaredLast(data);
    } else {
      var init := data[..n];
      assert init[i] == data[i];
      RecordDeclared(init, i);
      RecordDeclaredKept(data, i);
    }
  }

  lemma RecordDeclaredLast(data: seq<Run>)
    requires AllCharted(data) && |data| > 0
    ensures
      var i := |data| - 1;
      var key := ChartName(data[i].subGraph.value);
      key in Clusters(data)
      && (ProcId(i), NodeLabel(data[i].code)) in Clusters(data)[key]
      && (forall x | x in data[i].inputs :: x in InIds(data) && (InIds(data)[x], x) in Clusters(data)[key])
      && (forall y | y in data[i].outputs :: y in OutIds(data) && (OutIds(data)[y], y) in Clusters(data)[key])
  {
    var i := |data| - 1;
    var key := ChartName(data[i].subGraph.value);
    ClustersLast(data);
    EntryNamesNumbered(data);
    forall x | x in data[i].inputs ensures (InIds(data)[x], x) in Clusters(data)[key] {
      DeclsMembers(InIds(data), data[i].inputs, (InIds(data)[x], x));
    }
    forall y | y in data[i].outputs ensures (OutIds(data)[y], y) in Clusters(data)[key] {
      DeclsMembers(OutIds(data), data[i].outputs, (OutIds(data)[y], y));
    }
  }

  // What an earlier record declared stays declared once the last record is added.
  lemma RecordDeclaredKept(data: seq<Run>, i: nat)
    requires AllCharted(data) && i < |data| - 1
    requires
      var init, key := data[..|data| - 1], ChartName(data[i].subGraph.value);
      AllCharted(init)
      && key in Clusters(init)
      && (ProcId(i), NodeLabel(data[i].code)) in Clusters(init)[key]
      && (forall x | x in data[i].inputs :: x in InIds(init) && (InIds(init)[x], x) in Clusters(init)[key])
      && (forall y | y in data[i].outputs :: y in OutIds(init) && (OutIds(init)[y], y) in Clusters(init)[key])
    ensures
      var key := ChartName(data[i].subGraph.value);
      key in Clusters(data)
      && (ProcId(i), NodeLabel(data[i].code)) in Clusters(data)[key]
      && (forall x | x in data[i].inputs :: x in InIds(data) && (InIds(data)[x], x) in Clusters(data)[key])
      && (forall y | y in data[i].outputs :: y in OutIds(data) && (OutIds(data)[y], y) in Clusters(data)[key])
  {
    var init, key := data[..|data| - 1], ChartName(data[i].subGraph.value);
    IdsOfInit(data);
    ClustersGrow(data, key);
    var before, after := Clusters(init)[key], Clusters(data)[key];
    assert (ProcId(i), NodeLabel(data[i].code)) in before;
    forall x | x in data[i].inputs ensures x in InIds(data) && (InIds(data)[x], x) in after {
      assert x in InIds(init) && (InIds(init)[x], x) in before;
    }
    forall y | y in data[i].outputs ensures y in OutIds(data) && (OutIds(data)[y], y) in after {
      assert y in OutIds(init) && (OutIds(init)[y], y) in before;
    }
  }

  // A block declared before the last record keeps its declarations.
  lemma ClustersGrow(data: seq<Run>, key: string)
    requires AllCharted(data) && |data| > 0
    requires key in Clusters(data[..|data| - 1])
    ensures key in Clusters(data) && Clusters(data[..|data| - 1])[key] <= Clusters(data)[key]
  {
    ClustersLast(data);
  }

  // ---------------------------------------------------------------------------------------
  // The text.

  function Concat(parts: seq<string>): string {
    if |parts| == 0 then [] else Concat(parts[..|parts| - 1]) + parts[|parts| - 1]
  }

  function DeclLine(p: Pair): string {
    "        " + p.0 + "[\"" + p.1 + "\"]\n"
  }

  function DeclLines(ps: seq<Pair>): seq<string> {
    seq(|ps|, k requires 0 <= k < |ps| => DeclLine(ps[k]))
  }

  function Block(key: string, listing: seq<Pair>): string {
    "    subgraph " + key + "\n" + Concat(DeclLines(listing)) + "    end\n\n"
  }

  function Blocks(keys: seq<string>, listings: seq<seq<Pair>>): seq<string>
    requires |keys| == |listings|
  {
    seq(|keys|, k requires 0 <= k < |keys| => Block(keys[k], listings[k]))
  }

  function StackLines(keys: seq<string>): (r: seq<string>)
    ensures |keys| > 0 ==> |r| == |keys| - 1
  {
    if |keys| == 0 then []
    else (seq(|keys| - 1, i requires 0 <= i < |keys| - 1 =>
      "    " + keys[i] + " -->|Stacked Below| " + keys[i + 1] + "\n"))
  }

  function LinkLines(links: seq<Pair>): seq<string> {
    seq(|links|, i requires 0 <= i < |links| => "    " + links[i].0 + " --> " + links[i].1 + "\n")
  }

  /** The whole text, given the order in which each block's declarations are listed. */
  function Document(keys: seq<string>, listings: seq<seq<Pair>>, links: seq<Pair>): string
    requires |keys| == |listings|
  {
    Header + Concat(Blocks(keys, listings)) + Concat(StackLines(keys)) + Concat(LinkLines(links))
      + Footer
  }

  lemma ConcatSnoc(parts: seq<string>, i: nat)
    requires i < |parts|
    ensures Concat(parts[..i + 1]) == Concat(parts[..i]) + parts[i]
  {
    assert parts[..i + 1][..i] == parts[..i];
  }

  // ---------------------------------------------------------------------------------------
  // The generator.

  lemma NamesNumbered(pre: seq<string>, xs: seq<string>, prefix: string)
    ensures forall x | x in xs :: x in Ids(pre + xs, prefix)
  {
    forall x | x in xs ensures x in Ids(pre + xs, prefix) {
      assert x in ToSet(pre + xs);
    }
  }

  // One more name of `xs`, one more link, one more declaration.
  lemma LinksFromStep(ids: map<string, string>, xs: seq<string>, j: nat, proc: string)
    requires forall x | x in xs :: x in ids
    requires j < |xs|
    ensures forall x | x in xs[..j + 1] :: x in ids
    ensures LinksFrom(ids, xs[..j + 1], proc) == LinksFrom(ids, xs[..j], proc) + [(ids[xs[j]], proc)]
  {
    assert xs[..j + 1][..j] == xs[..j];
  }

  lemma LinksToStep(ids: map<string, string>, ys: seq<string>, j: nat, proc: string)
    requires forall y | y in ys :: y in ids
    requires j < |ys|
    ensures forall y | y in ys[..j + 1] :: y in ids
    ensures LinksTo(proc, ids, ys[..j + 1]) == LinksTo(proc, ids, ys[..j]) + [(proc, ids[ys[j]])]
  {
    assert ys[..j + 1][..j] == ys[..j];
  }

  lemma DeclsStep(ids: map<string, string>, xs: seq<string>, j: nat)
    requires forall x | x in xs :: x in ids
    requires j < |xs|
    ensures forall x | x in xs[..j + 1] :: x in ids
    ensures Decls(ids, xs[..j + 1]) == Decls(ids, xs[..j]) + {(ids[xs[j]], xs[j])}
  {
    assert xs[..j + 1][..j] == xs[..j];
  }

  // The inner loop over a record's inputs: number each new name, link it to the process node
  // and declare it in the record's block. `pre` holds the names numbered before.
  method AddInputs(ghost pre: seq<string>, xs: seq<string>, proc: string,
                   ids: map<string, string>, links: seq<Pair>, cluster: set<Pair>)
    returns (ids': map<string, string>, links': seq<Pair>, cluster': set<Pair>)
    requires ids == Ids(pre, "input_")
    ensures ids' == Ids(pre + xs, "input_") && forall x | x in xs :: x in ids'
    ensures links' == links + LinksFrom(ids', xs, proc)
    ensures cluster' == cluster + Decls(ids', xs)
  {
    NamesNumbered(pre, xs, "input_");
    ghost var final := Ids(pre + xs, "input_");
    ids', links', cluster' := ids, links, cluster;
    assert pre + xs[..0] == pre;
    for j := 0 to |xs|
      invariant ids' == Ids(pre + xs[..j], "input_")
      invariant links' == links + LinksFrom(final, xs[..j], proc)
      invariant cluster' == cluster + Decls(final, xs[..j])
    {
      var x := xs[j];
      IdsStepAt(pre, xs, j, "input_");
      ghost var before := ids';
      if x !in ids' {
        ids' := ids'[x := "input_" + NatToString(|ids'|)];
      }
      assert ids' == Assign(before, x, "input_");
      IdsSettled(pre, xs, j, "input_");
      assert ids'[x] == final[x];
      LinksFromStep(final, xs, j, proc);
      ConcatAssoc(links, LinksFrom(final, xs[..j], proc), [(final[x], proc)]);
      DeclsStep(final, xs, j);
      links' := links' + [(ids'[x], proc)];
      cluster' := cluster' + {(ids'[x], x)};
    }
    assert xs[..|xs|] == xs;
  }

  // The inner loop over a record's outputs, the mirror image of `AddInputs`.
  method AddOutputs(ghost pre: seq<string>, ys: seq<string>, proc: string,
                    ids: map<string, string>, links: seq<Pair>, cluster: set<Pair>)
    returns (ids': map<string, string>, links': seq<Pair>, cluster': set<Pair>)
    requires ids == Ids(pre, "output_")
    ensures ids' == Ids(pre + ys, "output_") && forall y | y in ys :: y in ids'
    ensures links' == links + LinksTo(proc, ids', ys)
    ensures cluster' == cluster + Decls(ids', ys)
  {
    NamesNumbered(pre, ys, "output_");
    ghost var final := Ids(pre + ys, "output_");
    ids', links', cluster' := ids, links, cluster;
    assert pre + ys[..0] == pre;
    for j := 0 to |ys|
      invariant ids' == Ids(pre + ys[..j], "output_")
      invariant links' == links + LinksTo(proc, final, ys[..j])
      invariant cluster' == cluster + Decls(final, ys[..j])
    {
      var y := ys[j];
      IdsStepAt(pre, ys, j, "output_");
      ghost var before := ids';
      if y !in ids' {
        ids' := ids'[y := "output_" + NatToString(|ids'|)];
      }
      assert ids' == Assign(before, y, "output_");
      IdsSettled(pre, ys, j, "output_");
      assert ids'[y] == final[y];
      LinksToStep(final, ys, j, proc);
      ConcatAssoc(links, LinksTo(proc, final, ys[..j]), [(proc, final[y])]);
      DeclsStep(final, ys, j);
      links' := links' + [(proc, ids'[y])];
      cluster' := cluster' + {(ids'[y], y)};
    }
    assert ys[..|ys|] == ys;
  }

  // One pass of the loop over the records: the record at `idx` is numbered, linked and
  // declared in its block.
  method AddRecord(data: seq<Run>, idx: nat, inIds: map<string, string>, outIds: map<string, string>,
                   links: seq<Pair>, keys: seq<string>, clusters: map<string, set<Pair>>)
    returns (inIds': map<string, string>, outIds': map<string, string>, links': seq<Pair>,
             keys': seq<string>, clusters': map<string, set<Pair>>)
    requires AllCharted(data) && idx < |data|
    requires inIds == InIds(data[..idx]) && outIds == OutIds(data[..idx])
    requires links == Links(data[..idx])
    requires keys == ChartKeys(data[..idx]) && clusters == Clusters(data[..idx])
    ensures inIds' == InIds(data[..idx + 1]) && outIds' == OutIds(data[..idx + 1])
    ensures links' == Links(data[..idx + 1])
    ensures keys' == ChartKeys(data[..idx + 1]) && clusters' == Clusters(data[..idx + 1])
  {
    var e := data[idx];
    var proc := ProcId(idx);
    var runLabel := NodeLabel(e.code);
    var chart := ChartName(e.subGraph.value);
    LinksSnoc(data, idx);
    ClustersSnoc(data, idx);
    ChartKeysSnoc(data, idx);
    EntryDeclsAt(data, idx);
    AllNamesSnoc(data, idx);
    var cluster := if chart in clusters then clusters[chart] else {};
    ghost var base := cluster;
    keys' := keys;
    if chart !in clusters {
      keys' := keys + [chart];
    }
    inIds', links', cluster := AddInputs(AllInputs(data[..idx]), e.inputs, proc, inIds, links, cluster);
    outIds', links', cluster := AddOutputs(AllOutputs(data[..idx]), e.outputs, proc, outIds, links', cluster);
    cluster := cluster + {(proc, runLabel)};
    UnionRegroup(base, Decls(InIds(data[..idx + 1]), e.inputs), Decls(OutIds(data[..idx + 1]), e.outputs),
      {(proc, runLabel)});
    clusters' := clusters[chart := cluster];
  }

  // The first pass over the records: ids, links and the blocks' declarations.
  method Collect(data: seq<Run>)
    returns (links: seq<Pair>, keys: seq<string>, clusters: map<string, set<Pair>>)
    requires AllCharted(data)
    ensures links == Links(data) && keys == ChartKeys(data) && clusters == Clusters(data)
  {
    var inIds: map<string, string> := map[];
    var outIds: map<string, string> := map[];
    links, keys, clusters := [], [], map[];
    for idx := 0 to |data|
      invariant inIds == InIds(data[..idx]) && outIds == OutIds(data[..idx])
      invariant links == Links(data[..idx])
      invariant keys == ChartKeys(data[..idx]) && clusters == Clusters(data[..idx])
    {
      inIds, outIds, links, keys, clusters := AddRecord(data, idx, inIds, outIds, links, keys, clusters);
    }
    assert data[..|data|] == data;
  }

  // One block: its name, then one line per declaration, then its end.
  method RenderBlock(key: string, nodes: seq<Pair>) returns (text: string)
    ensures text == Block(key, nodes)
  {
    text := "    subgraph " + key + "\n";
    ghost var head := text;
    var lines := DeclLines(nodes);
    for n := 0 to |nodes|
      invariant text == head + Concat(lines[..n])
    {
      ConcatSnoc(lines, n);
      text := text + DeclLine(nodes[n]);
    }
    assert lines[..|nodes|] == lines;
    text := text + "    end\n\n";
  }

  // The blocks, each listing its declarations in the order its set yields them.
  method RenderBlocks(keys: seq<string>, clusters: map<string, set<Pair>>)
    returns (text: string, ghost listings: seq<seq<Pair>>)
    requires forall k | 0 <= k < |keys| :: keys[k] in clusters
    ensures |listings| == |keys|
    ensures forall k | 0 <= k < |keys| :: NoDups(listings[k]) && ToSet(listings[k]) == clusters[keys[k]]
    ensures text == Concat(Blocks(keys, listings))
  {
    text := [];
    listings := [];
    for k := 0 to |keys|
      invariant |listings| == k
      invariant forall i | 0 <= i < k :: NoDups(listings[i]) && ToSet(listings[i]) == clusters[keys[i]]
      invariant text == Concat(Blocks(keys[..k], listings))
    {
      var nodes := SetToList(clusters[keys[k]]);
      var block := RenderBlock(keys[k], nodes);
      text := text + block;
      assert Blocks(keys[..k + 1], listings + [nodes])[..k] == Blocks(keys[..k], listings);
      listings := listings + [nodes];
    }
    assert keys[..|keys|] == keys;
  }

  // The links that chain each block to the next.
  method RenderStacking(keys: seq<string>) returns (text: string)
    ensures text == Concat(StackLines(keys))
  {
    text := [];
    var stack := StackLines(keys);
    var i := 0;
    while i + 1 < |keys|
      invariant i == 0 || i < |keys|
      invariant text == Concat(stack[..i])
    {
      ConcatSnoc(stack, i);
      text := text + "    " + keys[i] + " -->|Stacked Below| " + keys[i + 1] + "\n";
      i := i + 1;
    }
    assert stack[..i] == stack;
  }

  method RenderLinks(links: seq<Pair>) returns (text: string)
    ensures text == Concat(LinkLines(links))
  {
    text := [];
    var lines := LinkLines(links);
    for n := 0 to |links|
      invariant text == Concat(lines[..n])
    {
      ConcatSnoc(lines, n);
      text := text + "    " + links[n].0 + " --> " + links[n].1 + "\n";
    }
    assert lines[..|links|] == lines;
  }

  /** `generate_mermaid_markdown`. `listings` records the order in which each block's set of
      declarations was listed. */
  method GenerateMermaidMarkdown(data: seq<Run>) returns (md: string, ghost listings: seq<seq<Pair>>)
    requires AllCharted(data)
    ensures |listings| == |ChartKeys(data)|
    ensures forall k | 0 <= k < |listings| ::
      NoDups(listings[k]) && ToSet(listings[k]) == Clusters(data)[ChartKeys(data)[k]]
    ensures md == Document(ChartKeys(data), listings, Links(data))
  {
    var links, keys, clusters := Collect(data);
    forall k | 0 <= k < |keys| ensures keys[k] in clusters {
      assert keys[k] in ToSet(keys);
    }
    md := Header;
    var blocks;
    blocks, listings := RenderBlocks(keys, clusters);
    md := md + blocks;
    var stacking := RenderStacking(keys);
    md := md + stacking;
    var linkText := RenderLinks(links);
    md := md + linkText;
    md := md + Footer;
  }
}
