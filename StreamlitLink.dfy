/** `StLink`: turns the nodes and edges of a processed `StructuredSAS` object into the node and
    edge records a network-drawing component takes. Nodes are numbered from 1 in list order;
    an edge names its ends by those numbers. */
module StreamlitLink {
  import opened Wrappers
  import opened Text
  import Subgraph
  import Structured

  // `{"data": {"id": ..., "label": "VARIABLE", "name": ...}}`; `label` is spelled `kind` here.
  datatype NodeData = NodeData(id: nat, kind: string, name: string)

  // `{"data": {"id": ..., "label": "graph_edge", "source": ..., "target": ...}}`
  datatype EdgeData = EdgeData(id: nat, kind: string, source: nat, target: nat)

  // `{"nodes": [...], "edges": [...]}`
  datatype LinkData = LinkData(nodes: seq<NodeData>, edges: seq<EdgeData>)

  // `struct_nodes`: one record per node name, numbered from 1.
  function NodeRecords(names: seq<string>): seq<NodeData> {
    seq(|names|, k requires 0 <= k < |names| => NodeData(k + 1, "VARIABLE", names[k]))
  }

  // `{d["data"]["name"]: d["data"]["id"] for d in nodes_structured}`: a later record with the
  // same name overwrites an earlier one.
  function NameMap(records: seq<NodeData>): (m: map<string, nat>)
    ensures forall r | r in records :: r.name in m
  {
    if |records| == 0 then map[]
    else
      var last := records[|records| - 1];
      NameMap(records[..|records| - 1])[last.name := last.id]
  }

  // A name maps to the number of the last node of that name.
  lemma {:induction false} NameMapLastWins(names: seq<string>, x: string)
    requires x in names
    ensures var m := NameMap(NodeRecords(names));
      x in m && 1 <= m[x] <= |names| && names[m[x] - 1] == x
      && forall k | m[x] <= k < |names| :: names[k] != x
  {
    var n := |names| - 1;
    var init := names[..n];
    var records := NodeRecords(names);
    assert records[..n] == NodeRecords(init);
    assert records[n] == NodeData(n + 1, "VARIABLE", x) || records[n].name != x;
    assert NameMap(records) == NameMap(NodeRecords(init))[names[n] := n + 1];
    if names[n] != x {
      assert x in init;
      NameMapLastWins(init, x);
      assert forall k | 0 <= k < n :: init[k] == names[k];
    }
  }

  lemma NameMapCovers(names: seq<string>)
    ensures forall x | x in names :: x in NameMap(NodeRecords(names))
  {
    forall x | x in names ensures x in NameMap(NodeRecords(names)) {
      var k :| 0 <= k < |names| && names[k] == x;
      assert NodeRecords(names)[k] in NodeRecords(names);
    }
  }

  // `struct_edges`: one record per edge, numbered from 1, its ends looked up by name.
  function EdgeRecords(m: map<string, nat>, edges: seq<Subgraph.Edge>): seq<EdgeData>
    requires forall e | e in edges :: e.0 in m && e.1 in m
  {
    seq(|edges|, i requires 0 <= i < |edges| => EdgeData(i + 1, "graph_edge", m[edges[i].0], m[edges[i].1]))
  }

  /** What `prepare_data` stores for the given node and edge lists. */
  function PreparedData(nodes: seq<string>, edges: seq<Subgraph.Edge>): LinkData
    requires forall e | e in edges :: e.0 in nodes && e.1 in nodes
  {
    var records := NodeRecords(nodes);
    NameMapCovers(nodes);
    LinkData(records, EdgeRecords(NameMap(records), edges))
  }

  // Each edge record points at node records carrying the edge's end names, and the records
  // are numbered 1, 2, ... in list order.
  lemma PreparedDataResolves(nodes: seq<string>, edges: seq<Subgraph.Edge>)
    requires forall e | e in edges :: e.0 in nodes && e.1 in nodes
    ensures var d := PreparedData(nodes, edges);
      |d.nodes| == |nodes| && |d.edges| == |edges|
      && (forall k | 0 <= k < |nodes| :: d.nodes[k] == NodeData(k + 1, "VARIABLE", nodes[k]))
      && forall i | 0 <= i < |edges| ::
        d.edges[i].id == i + 1 && d.edges[i].kind == "graph_edge"
        && 1 <= d.edges[i].source <= |nodes| && d.nodes[d.edges[i].source - 1].name == edges[i].0
        && 1 <= d.edges[i].target <= |nodes| && d.nodes[d.edges[i].target - 1].name == edges[i].1
  {
    var d := PreparedData(nodes, edges);
    forall i | 0 <= i < |edges|
      ensures d.edges[i].id == i + 1 && d.edges[i].kind == "graph_edge"
        && 1 <= d.edges[i].source <= |nodes| && d.nodes[d.edges[i].source - 1].name == edges[i].0
        && 1 <= d.edges[i].target <= |nodes| && d.nodes[d.edges[i].target - 1].name == edges[i].1
    {
      EdgeResolves(nodes, edges, i);
    }
  }

  // One edge record, resolved.
  lemma EdgeResolves(nodes: seq<string>, edges: seq<Subgraph.Edge>, i: nat)
    requires forall e | e in edges :: e.0 in nodes && e.1 in nodes
    requires i < |edges|
    ensures var d := PreparedData(nodes, edges);
      d.edges[i].id == i + 1 && d.edges[i].kind == "graph_edge"
      && 1 <= d.edges[i].source <= |nodes| && d.nodes[d.edges[i].source - 1].name == edges[i].0
      && 1 <= d.edges[i].target <= |nodes| && d.nodes[d.edges[i].target - 1].name == edges[i].1
  {
    var records := NodeRecords(nodes);
    NameMapCovers(nodes);
    var m := NameMap(records);
    var es := EdgeRecords(m, edges);
    assert PreparedData(nodes, edges) == LinkData(records, es);
    assert edges[i] in edges;
    assert es[i] == EdgeData(i + 1, "graph_edge", m[edges[i].0], m[edges[i].1]);
    EndResolves(nodes, edges[i].0);
    EndResolves(nodes, edges[i].1);
  }

  // The record a name resolves to carries that name.
  lemma EndResolves(nodes: seq<string>, x: string)
    requires x in nodes
    ensures var m := NameMap(NodeRecords(nodes));
      x in m && 1 <= m[x] <= |nodes| && NodeRecords(nodes)[m[x] - 1].name == x
  {
    NameMapLastWins(nodes, x);
  }

  // With distinct node names, an edge's ends are exactly the nodes of those names.
  lemma PreparedDataUniqueNames(nodes: seq<string>, edges: seq<Subgraph.Edge>, i: nat, k: nat)
    requires forall e | e in edges :: e.0 in nodes && e.1 in nodes
    requires NoDups(nodes) && i < |edges| && k < |nodes|
    ensures PreparedData(nodes, edges).edges[i].source == k + 1 <==> nodes[k] == edges[i].0
    ensures PreparedData(nodes, edges).edges[i].target == k + 1 <==> nodes[k] == edges[i].1
  {
    PreparedDataResolves(nodes, edges);
  }

  class StLink {
    const sasObj: Structured.StructuredSas
    var stLinkData: Option<LinkData>

    constructor(sasObj: Structured.StructuredSas)
      ensures this.sasObj == sasObj && stLinkData == None
    {
      this.sasObj := sasObj;
      stLinkData := None;
    }

    /** Build the records from the object's nodes and edges; every edge end must be one of
        the nodes (a missing name raises `KeyError`). */
    method PrepareData() returns (self: StLink)
      requires sasObj.nodes.Some? && sasObj.edges.Some?
      requires forall e | e in sasObj.edges.value :: e.0 in sasObj.nodes.value && e.1 in sasObj.nodes.value
      modifies this
      ensures self == this
      ensures stLinkData == Some(PreparedData(sasObj.nodes.value, sasObj.edges.value))
    {
      var nodesStruct := NodeRecords(sasObj.nodes.value);
      NameMapCovers(sasObj.nodes.value);
      var nodeMap := NameMap(nodesStruct);
      var edgesStruct := EdgeRecords(nodeMap, sasObj.edges.value);
      stLinkData := Some(LinkData(nodesStruct, edgesStruct));
      self := this;
    }
  }
}
