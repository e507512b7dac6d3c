/** `StructuredSAS`: one object that carries a SAS script through the pipeline. Each step
    reads what an earlier step stored in a field, stores its own result in a field, and returns
    the object so that the steps can be chained. */
module Structured {
  import opened Wrappers
  import opened Text
  import opened Runs
  import Preprocess
  import Parse
  import Merge
  import Subgraph
  import Sanitize
  import Metadata

  // `struct_code` holds nothing at first, the cleaned script text after `clean_initial_code`,
  // and the run records from `merge_identity_runs` on.
  datatype StructCode = Unset | Script(text: string) | Records(runs: seq<Run>)

  // Labelling and then cleaning the merged runs gives each merged run its component label and
  // its cleaned code, and leaves every other field as it was.
  lemma LabelledThenCleaned(merged: seq<Run>, labelled: seq<Run>, cleaned: seq<Run>, ids: map<string, nat>)
    requires |labelled| == |merged| && |cleaned| == |labelled|
    requires forall k | 0 <= k < |labelled| :: Subgraph.LabelledFrom(merged[k], labelled[k], ids)
    requires forall k | 0 <= k < |cleaned| ::
      cleaned[k] == labelled[k].(code := Sanitize.CleanCode(labelled[k].code, Sanitize.Structured))
    ensures forall k | 0 <= k < |cleaned| :: cleaned[k].subGraph.Some?
    ensures forall k | 0 <= k < |cleaned| ::
      var m := merged[k];
      Subgraph.LabelledFrom(m, cleaned[k].(code := m.code), ids)
      && cleaned[k].code == Sanitize.CleanCode(m.code, Sanitize.Structured)
  {
    forall k | 0 <= k < |cleaned|
      ensures cleaned[k].(code := merged[k].code) == labelled[k]
      ensures cleaned[k].code == Sanitize.CleanCode(merged[k].code, Sanitize.Structured)
    {
      assert labelled[k].code == merged[k].code;
    }
  }

  class StructuredSas {
    const rawCode: string
    var preProcessed: Option<seq<Run>>
    var structCode: StructCode
    var mermaidStructure: Option<string>
    var inputs: Option<seq<string>>
    var outputs: Option<seq<string>>
    var subgraphs: Option<seq<SubGraphId>>
    var edges: Option<seq<Subgraph.Edge>>
    var nodes: Option<seq<string>>

    constructor(rawCode: string)
      ensures this.rawCode == rawCode && preProcessed == None && structCode == Unset
      ensures mermaidStructure == None && inputs == None && outputs == None
      ensures subgraphs == None && edges == None && nodes == None
    {
      this.rawCode := rawCode;
      preProcessed := None;
      structCode := Unset;
      mermaidStructure := None;
      inputs := None;
      outputs := None;
      subgraphs := None;
      edges := None;
      nodes := None;
    }

    /** Remove the `/*---*/` rule lines from the raw script. */
    method CleanInitialCode() returns (self: StructuredSas)
      modifies this
      ensures preProcessed == old(preProcessed) && inputs == old(inputs) && outputs == old(outputs)
      ensures subgraphs == old(subgraphs) && edges == old(edges) && nodes == old(nodes)
      ensures mermaidStructure == old(mermaidStructure)
      ensures self == this
      ensures structCode == Script(Preprocess.CleanInitialCode(rawCode))
    {
      structCode := Script(Preprocess.CleanInitialCode(rawCode));
      self := this;
    }

    /** Split the cleaned script into run records. */
    method ParseSasScript() returns (self: StructuredSas)
      requires structCode.Script?
      modifies this
      ensures structCode == old(structCode) && inputs == old(inputs) && outputs == old(outputs)
      ensures subgraphs == old(subgraphs) && edges == old(edges) && nodes == old(nodes)
      ensures mermaidStructure == old(mermaidStructure)
      ensures self == this
      ensures preProcessed.Some?
      ensures Parse.RecordsOf(preProcessed.value, Parse.Units(structCode.text))
      ensures StrictlySorted(preProcessed.value)
      ensures forall r | r in preProcessed.value :: r.inputs != [] || r.outputs != []
    {
      var runs := Parse.ParseSasScript(structCode.text);
      preProcessed := Some(runs);
      self := this;
    }

    /** Fold the runs that read and write one and the same dataset into one run per dataset. */
    method MergeIdentityRuns() returns (self: StructuredSas)
      requires preProcessed.Some?
      modifies this
      ensures preProcessed == old(preProcessed) && inputs == old(inputs) && outputs == old(outputs)
      ensures subgraphs == old(subgraphs) && edges == old(edges) && nodes == old(nodes)
      ensures mermaidStructure == old(mermaidStructure)
      ensures self == this
      ensures structCode == Records(Merge.Merged(preProcessed.value))
    {
      var merged := Merge.MergeIdentityRuns(preProcessed.value);
      structCode := Records(merged);
      self := this;
    }

    /** Label every run with the connected component of the dataset graph it belongs to. */
    method AssignSubgraphIds() returns (self: StructuredSas, ghost ids: map<string, nat>)
      requires structCode.Records?
      modifies this
      ensures preProcessed == old(preProcessed) && inputs == old(inputs) && outputs == old(outputs)
      ensures subgraphs == old(subgraphs) && edges == old(edges) && nodes == old(nodes)
      ensures mermaidStructure == old(mermaidStructure)
      ensures self == this
      ensures structCode.Records? && |structCode.runs| == |old(structCode.runs)|
      ensures Subgraph.IsComponentNumbering(Subgraph.GraphEdges(old(structCode.runs)), ids)
      ensures forall k | 0 <= k < |structCode.runs| ::
        Subgraph.LabelledFrom(old(structCode.runs)[k], structCode.runs[k], ids)
    {
      var labelled;
      labelled, ids := Subgraph.AssignSubgraphIds(structCode.runs);
      structCode := Records(labelled);
      self := this;
    }

    /** Make every run's code printable as a one-line diagram label. */
    method CleanRunCode() returns (self: StructuredSas)
      requires structCode.Records?
      modifies this
      ensures preProcessed == old(preProcessed) && inputs == old(inputs) && outputs == old(outputs)
      ensures subgraphs == old(subgraphs) && edges == old(edges) && nodes == old(nodes)
      ensures mermaidStructure == old(mermaidStructure)
      ensures self == this
      ensures structCode.Records? && |structCode.runs| == |old(structCode.runs)|
      ensures forall k | 0 <= k < |structCode.runs| ::
        structCode.runs[k]
          == old(structCode.runs)[k].(code := Sanitize.CleanCode(old(structCode.runs)[k].code, Sanitize.Structured))
    {
      var cleaned := Sanitize.CleanRunCode(structCode.runs, Sanitize.Structured);
      structCode := Records(cleaned);
      self := this;
    }

    /** Store the sorted input names, the sorted output names and the sorted sub-graph ids.
        The names are stored before the ids are gathered, so when the ids cannot be gathered
        the names stay stored and `subgraphs` keeps its value. */
    method GetMetadata() returns (result: Result<StructuredSas, Metadata.MetadataError>)
      requires structCode.Records?
      modifies this
      ensures structCode == old(structCode) && preProcessed == old(preProcessed)
      ensures edges == old(edges) && nodes == old(nodes) && mermaidStructure == old(mermaidStructure)
      ensures inputs == Some(Metadata.SortedInputs(structCode.runs))
      ensures outputs == Some(Metadata.SortedOutputs(structCode.runs))
      ensures match Metadata.SubgraphList(structCode.runs)
        case Ok(ids) => result == Ok(this) && subgraphs == Some(ids)
        case Err(e) => result == Err(e) && subgraphs == old(subgraphs)
    {
      inputs := Some(Metadata.SortedInputs(structCode.runs));
      outputs := Some(Metadata.SortedOutputs(structCode.runs));
      var ids := Metadata.SubgraphList(structCode.runs);
      if ids.Err? {
        return Err(ids.error);
      }
      subgraphs := Some(ids.value);
      result := Ok(this);
    }

    /** Store the dataset names as nodes and the input-to-output pairs of every run as edges. */
    method GetMetadataNetwork() returns (self: StructuredSas)
      requires structCode.Records? && inputs.Some? && outputs.Some?
      modifies this
      ensures structCode == old(structCode) && preProcessed == old(preProcessed)
      ensures inputs == old(inputs) && outputs == old(outputs) && subgraphs == old(subgraphs)
      ensures mermaidStructure == old(mermaidStructure)
      ensures self == this
      ensures nodes.Some? && NoDups(nodes.value)
      ensures forall x :: x in nodes.value <==> x in inputs.value || x in outputs.value
      ensures edges == Some(Metadata.NetworkEdges(structCode.runs))
      ensures inputs == Some(Metadata.SortedInputs(structCode.runs))
        && outputs == Some(Metadata.SortedOutputs(structCode.runs))
        ==> forall e | e in edges.value :: e.0 in nodes.value && e.1 in nodes.value
    {
      var ns := Metadata.GetNodes(inputs.value, outputs.value);
      var es := Metadata.GetEdges(structCode.runs);
      nodes := Some(ns);
      edges := Some(es);
      if inputs == Some(Metadata.SortedInputs(structCode.runs))
        && outputs == Some(Metadata.SortedOutputs(structCode.runs)) {
        Metadata.EdgeEndsAreNodes(structCode.runs, ns);
      }
      self := this;
    }

    /** The whole pipeline, step after step. It stops only where `get_metadata` cannot sort a
        `None` sub-graph id next to a numbered one: after `assign_subgraph_ids` every run has
        an id. */
    method ExecuteAllProcessingSteps()
      returns (result: Result<StructuredSas, Metadata.MetadataError>, ghost ids: map<string, nat>)
      modifies this
      ensures mermaidStructure == old(mermaidStructure)
      ensures preProcessed.Some? && StrictlySorted(preProcessed.value)
      ensures Parse.RecordsOf(preProcessed.value, Parse.Units(Preprocess.CleanInitialCode(rawCode)))
      ensures structCode.Records?
      ensures |structCode.runs| == |Merge.Merged(preProcessed.value)|
      ensures forall k | 0 <= k < |structCode.runs| :: structCode.runs[k].subGraph.Some?
      ensures Subgraph.IsComponentNumbering(Subgraph.GraphEdges(Merge.Merged(preProcessed.value)), ids)
      ensures forall k | 0 <= k < |structCode.runs| ::
        var m := Merge.Merged(preProcessed.value)[k];
        Subgraph.LabelledFrom(m, structCode.runs[k].(code := m.code), ids)
        && structCode.runs[k].code == Sanitize.CleanCode(m.code, Sanitize.Structured)
      ensures inputs == Some(Metadata.SortedInputs(structCode.runs))
      ensures outputs == Some(Metadata.SortedOutputs(structCode.runs))
      ensures result.Err? ==> result == Err(Metadata.UnorderableSubgraphs)
      ensures result.Ok? <==> Metadata.SubgraphList(structCode.runs).Ok?
      ensures result.Ok? ==> subgraphs == Some(Metadata.SubgraphList(structCode.runs).value)
      ensures result.Ok? ==> result == Ok(this) && nodes.Some? && edges.Some?
      ensures result.Ok? ==> NoDups(nodes.value)
      ensures result.Ok? ==> forall x :: x in nodes.value <==> x in inputs.value || x in outputs.value
      ensures result.Ok? ==> edges == Some(Metadata.NetworkEdges(structCode.runs))
      ensures result.Ok? ==> forall e | e in edges.value :: e.0 in nodes.value && e.1 in nodes.value
    {
      var s := CleanInitialCode();
      s := s.ParseSasScript();
      ghost var parsed := preProcessed.value;
      assert Parse.RecordsOf(parsed, Parse.Units(Preprocess.CleanInitialCode(rawCode)));
      s := s.MergeIdentityRuns();
      ghost var merged := structCode.runs;
      assert |merged| == |Merge.Merged(parsed)|;
      assert merged == Merge.Merged(parsed);
      s, ids := s.AssignSubgraphIds();
      ghost var labelled := structCode.runs;
      s := s.CleanRunCode();
      ghost var cleaned := structCode.runs;
      LabelledThenCleaned(merged, labelled, cleaned, ids);
      assert preProcessed == Some(parsed);
      Metadata.SubgraphListLabelled(cleaned);
      var r := s.GetMetadata();
      assert structCode.runs == cleaned && preProcessed == Some(parsed);
      if r.Err? {
        assert r.error == Metadata.UnorderableSubgraphs;
        result := r;
        return;
      }
      s := r.value;
      s := s.GetMetadataNetwork();
      result := Ok(s);
    }
  }
}
