# SAS2Py dependency-graph core, modelled in Dafny

SAS2Py reads a SAS script and works out which datasets each step reads and writes. The result
is a dataset dependency graph. From it the tool draws a Mermaid flowchart and builds the node
and edge records for a network view. This project models the pipeline that produces those
results, step by step, and proves what each step guarantees:

1. `clean_initial_code` deletes the `/*---*/` rule lines (module `Preprocess`).
2. `parse_sas_script` works in three stages:
   - it splits the script into sections at `--#` breaks (module `Segment`);
   - it splits each section into runs at `RUN;` / `QUIT;` followed by a newline;
   - it extracts each run's input and output datasets from `DATA`, `SET`, `MERGE` and
     `DATA=`/`OUT=` (module `Extract`), and keeps a run only when it refers to some dataset
     (module `Parse`).
3. `merge_identity_runs` folds the runs that read and write one and the same dataset into one
   run per dataset. Each merged run takes the code of its group, in position order (module
   `Merge`; the run record and its position order are in `Runs`).
4. `assign_subgraph_ids` labels each run with the weakly connected component of the
   input→output dataset graph that it belongs to (module `Subgraph`).
5. `clean_run_code` makes each run's code printable as a one-line diagram label (module
   `Sanitize`). Two variants exist:
   - the `StructuredSAS` method, called `Structured` here;
   - the older free function in `main.py`, called `Legacy` here.
6. `get_metadata` and `get_metadata_network` collect the sorted dataset lists, the sub-graph
   list, the node list and the edge list (module `Metadata`).
7. The `StructuredSAS` object carries a script through these steps: each step stores its
   result in a field and returns the object (module `Structured`, class `StructuredSas`).
8. `generate_mermaid_markdown` draws the Mermaid flowchart (module `Mermaid`).
9. `StLink` numbers the nodes and edges for the network view (module `StreamlitLink`).

The free functions of `utils/depricated/parse_SAS_network.py` do what the class methods of the
same names do. They are modelled by the same Dafny definitions.

Python's regular expressions are modelled by hand-written scanners, one per pattern the code
uses:
- `\s`, `str.strip` and `str.splitlines` use Python's own whitespace and line-break sets;
- `IGNORECASE` and `\w` are taken over ASCII.

Python sets and dictionaries iterate in an order the language does not fix. Wherever the code
turns a set into a list, the model leaves the order open: a method picks elements with `:|`,
and its contract says only that each element appears once and the set is the same.

Where the code and its own documentation disagree, the model follows the code:
- `clean_initial_code` is not idempotent. Deleting `/**/` from `/*/**/*/` leaves a fresh
  `/**/` (`Preprocess.CleanNotIdempotent`).
- Edges are not deduplicated across runs. Two runs with the same input and output give the
  same edge twice (`Metadata.NetworkEdgesKeepRepeats`).
- `re.sub("<br>+", ...)` repeats only the final `>`. It turns `<br>>>` into `<br>` but leaves
  `<br><br>` as it is (`Sanitize.CollapseShortens`, `Sanitize.CollapseKeepsRepeatedMarkers`).
- `get_metadata` sorts the sub-graph ids. It fails when some are `None` and others are numbers
  (`Metadata.MixedSubgraphsFail`).
- The `main.py` variant of `clean_run_code` keeps `"` and does not collapse `<br>` runs
  (`Sanitize.VariantsDifferOnQuote`).

## Model

| member | source | states |
|---|---|---|
| Preprocess.CleanInitialCode | utils/parse_utils.py:24-26 | the cleaned script is never longer than the raw one |
| Preprocess.OnlyRuleBlocksDeleted | utils/parse_utils.py:24-26 | the script splits into kept and dropped pieces that rebuild it exactly; the kept pieces form the result, and every dropped piece is a `/*`, dashes, `*/` rule followed by its trailing whitespace |
| Preprocess.CleanWithoutOpener | utils/depricated/parse_SAS_network.py:10-12 | a script without `/*` is returned unchanged |
| Preprocess.CleanNotIdempotent | utils/parse_utils.py:24-26 | cleaning `/*/**/*/` gives `/**/`, and cleaning again gives the empty script, so one pass is not a fixed point |
| Segment.SectionsRoundTrip | utils/parse_utils.py:66 | the sections and the `--#` breaks between them interleave back into the script, one more section than breaks, and every break is `--` and one or more `#` |
| Segment.SectionsAreBreakFree | utils/parse_utils.py:66 | no section contains `--#`, and a script without `--#` is a single section |
| Segment.RunsFrom | utils/parse_utils.py:74 | splitting a section at `RUN;`/`QUIT;` followed by a newline gives an odd number of pieces, and every odd-numbered piece is the captured keyword |
| Segment.RunsRoundTrip | utils/parse_utils.py:74 | the run bodies, the captured keywords and the removed `;`-whitespace-newline delimiters put back in order rebuild the section; every odd piece is `RUN` or `QUIT` in any case; no body holds a match of the pattern; a section without a match is returned whole |
| Extract.FirstDataName | utils/parse_utils.py:39-41 | the `DATA` output name is a dataset-name token taken from the code |
| Extract.SetNames | utils/parse_utils.py:44-45 | every `SET` input is a token taken from the code |
| Extract.SetNamesFirst | utils/parse_utils.py:44-45 | the scan takes the name of the first `SET` statement at or after its position, then goes on after that name |
| Extract.SetNamesNoMatch | utils/parse_utils.py:44-45 | with no `SET` statement left, no more names are found |
| Extract.MergeNames | utils/parse_utils.py:48-51 | every `MERGE` input, its `(IN=...)` qualifier skipped, is a token taken from the code |
| Extract.MergeNamesFirst | utils/parse_utils.py:48-51 | the names come from the first `MERGE` group (up to its `;`) at or after the position, then from the groups after it |
| Extract.MergeTokensFirst | utils/parse_utils.py:50 | inside a group, the first name token at or after the position is taken, and the scan resumes after it |
| Extract.MergeQualifierSkipped | utils/parse_utils.py:50 | a name followed by `(IN=flag)` yields the name only, and the scan resumes after the `)` |
| Extract.MergeFlagExample | utils/parse_utils.py:29-61 | `MERGE a(IN=x) b;` reads `a` and `b`, not the flag `x`, and writes nothing |
| Extract.ProcOptions | utils/parse_utils.py:54-59 | every `DATA=`/`OUT=` option name is a token taken from the code |
| Extract.ProcOptionsFirst | utils/parse_utils.py:54-59 | the scan takes the first `DATA=`/`OUT=` option at or after the position, as an input iff its keyword is `DATA`, and as an output when it is `OUT` |
| Extract.ExtractInputsOutputs | utils/parse_utils.py:29-61 | the inputs are exactly the `SET` names, the `MERGE` names and the `DATA=` names; the outputs are exactly the first `DATA` statement's name and the `OUT=` names; every name is a token of the code, and code shorter than five characters refers to nothing |
| Extract.FirstDataUnique | utils/parse_utils.py:39-41 | the `DATA` search stops at the first `DATA` statement |
| Extract.OutputsCharacterised | utils/depricated/parse_SAS_network.py:13-45 | the outputs are exactly the `OUT=` names plus at most one more, the name after the first `DATA` statement; that name is always an output |
| Extract.ExtractExample | utils/parse_utils.py:29-61 | `DATA b; SET a;` reads `a` and writes `b` |
| Parse.KeywordFragmentDropped | utils/parse_utils.py:95-103 | a captured `RUN`/`QUIT` keyword refers to no dataset, so no run is kept for it |
| Parse.UnitsWellFormed | utils/parse_utils.py:74-103 | every kept run refers to some dataset and has stripped, non-empty code that contains each of its names; runs come from even-numbered pieces, in increasing (section, run) order |
| Parse.UnitsComplete | utils/parse_utils.py:74-103 | every piece that refers to a dataset is kept |
| Parse.ParseSasScript | utils/depricated/parse_SAS_network.py:48-96 | the records are exactly the kept runs, in order, with each input and output set listed once; they are strictly ordered by position and none is empty |
| Runs.SortByKeyCorrect | utils/parse_utils.py:150-151 | sorting by `(section_index, run_index)` gives an ordered permutation of the runs |
| Merge.MergeIdentityRuns | utils/parse_utils.py:107-154 | the method computes the merged runs: the runs not merged, plus one merged run per identity dataset, sorted by position |
| Merge.MergedRunShape | utils/parse_utils.py:125-139 | a merged run reads and writes its dataset, takes the position of the first run of its group, and joins the group's code with newlines in position order |
| Merge.MergedSize | utils/depricated/parse_SAS_network.py:102-148 | merging never adds runs |
| Merge.MergedSorted | utils/parse_utils.py:150-151 | the merged runs are ordered by position |
| Merge.MergedMembers | utils/parse_utils.py:122-148 | every result run is an input run that is not an identity candidate, or the merge of one identity group |
| Merge.MergedKeepsOthers | utils/parse_utils.py:146-148 | with distinct positions, every run that is not an identity candidate survives unchanged |
| Merge.MergedIdentity | utils/parse_utils.py:115-140 | for every dataset, exactly one result run is an identity run on it when some input run was, and none otherwise |
| Merge.MergeExample | utils/parse_utils.py:107-154 | two identity runs on `x` become one run at the first position, with code `a\nb` |
| Subgraph.Component | utils/parse_utils.py:170-173 | the component found from a root holds the root, is closed under undirected edges, and every member is connected to the root |
| Subgraph.Components | utils/parse_utils.py:170-173 | the components are non-empty, disjoint and closed, each is connected, and together they cover every node |
| Subgraph.NumberingCorrect | utils/parse_utils.py:170-173 | numbering the components gives exactly the graph's nodes a number, two nodes share one iff they are connected, and the numbers used are `0 .. n-1` |
| Subgraph.SameBlockIffConnected | utils/parse_utils.py:170-173 | two nodes lie in the same component iff they are connected |
| Subgraph.ValuesAreRange | utils/parse_utils.py:170-173 | the numbers used are exactly `0 .. n-1` for `n` components |
| Subgraph.AssignSubgraphIds | utils/depricated/parse_SAS_network.py:152-177 | every run keeps its fields and gets a label: `None` iff none of its datasets is in the graph, otherwise the component number of one of them |
| Subgraph.FullRunLabelled | utils/parse_utils.py:176-180 | a run with both inputs and outputs is labelled with the component of every dataset it mentions |
| Subgraph.SharedDatasetSameLabel | utils/parse_utils.py:164-180 | two runs with inputs and outputs that mention a common dataset get the same numbered label |
| Sanitize.StripComments | utils/parse_utils.py:205 | removing `/* ... */` comments never lengthens the code and adds no character |
| Sanitize.OnlyCommentsDeleted | utils/parse_utils.py:205 | the code splits into kept and dropped pieces that rebuild it; every dropped piece is a shortest `/* ... */` comment |
| Sanitize.StripCommentsNonGreedy | main.py:29 | a comment ends at the first `*/`: `/*a*/b*/` leaves `b*/` |
| Sanitize.SplitLinesJoin | utils/parse_utils.py:211-212 | for text whose only line break is `\n` and that does not end in one, the lines joined with `\n` rebuild the text |
| Sanitize.CollapseNoop | utils/parse_utils.py:213 | code without `<br>>` is left unchanged by the `<br>+` substitution |
| Sanitize.CollapseKeepsRepeatedMarkers | utils/parse_utils.py:213 | `<br><br>` is not collapsed |
| Sanitize.CleanCode | utils/parse_utils.py:184-227 | the cleaned code has no line break, `?` or `'`, and in the `StructuredSAS` variant no `"` |
| Sanitize.FlattenPlain | utils/parse_utils.py:205-212 | code without `/*` or `?` is split into lines, each stripped with `\n` written `<br>`, and joined with `<br>` |
| Sanitize.FlattenSingleLine | utils/parse_utils.py:205-212 | a single line without `/*` or `?` is stripped and its `\n` written `<br>` |
| Sanitize.EscapeIdentity | utils/parse_utils.py:213-219 | text without quotes or `<br>>` passes the marker and quote steps unchanged, in both variants |
| Sanitize.CleanCodeLines | utils/parse_utils.py:204-219 | code without comments, `?` or quotes whose flattened form has no `<br>>` becomes its stripped lines joined with `<br>` |
| Sanitize.CleanCodeSingleLine | utils/parse_utils.py:204-219 | such code on one line becomes the stripped line with `\n` written `<br>` |
| Sanitize.CleanCodeEscapedNewline | utils/parse_utils.py:211 | `a\nb`, with a literal backslash and `n`, becomes `a<br>b` |
| Sanitize.VariantsAgree | main.py:8-47 | on code without `"` whose flattened form has no `<br>>`, the two variants give the same label |
| Sanitize.VariantsDifferOnQuote | main.py:40 | `"` becomes `&apos;` in the `StructuredSAS` variant and stays in the `main.py` one |
| Sanitize.CleanRunCode | main.py:8-47 | every run keeps its fields except the code, which is cleaned, and the list keeps its length and order |
| Metadata.SortedInputs | utils/parse_utils.py:249-266 | the input list is strictly increasing and holds exactly the names some run reads |
| Metadata.SortedOutputs | utils/parse_utils.py:249-266 | the output list is strictly increasing and holds exactly the names some run writes |
| Metadata.IncreasingUnique | utils/parse_utils.py:249-266 | two strictly increasing lists with the same elements are equal, so the sorted list is determined by the set |
| Metadata.SubgraphList | utils/parse_utils.py:249-272 | it fails with a missing label iff some run has no label, and as unorderable iff both `None` and numbers occur; on success it lists each label once, numbers ascending |
| Metadata.MixedSubgraphsFail | utils/parse_utils.py:249-266 | a `None` label next to a numbered one cannot be sorted |
| Metadata.SubEdges | utils/parse_utils.py:295-310 | the pairs of one run are distinct, never a self-loop, and are exactly its input→output pairs of distinct names |
| Metadata.NetworkEdgesMembers | utils/parse_utils.py:288-316 | an edge is in the list iff some run reads its source and writes its target, and the two differ |
| Metadata.NetworkEdgesKeepRepeats | utils/parse_utils.py:288-316 | two runs with the same single input and output contribute the same edge twice |
| Metadata.GetEdges | utils/parse_utils.py:288-316 | the method builds the edge list run by run |
| Metadata.GetNodes | utils/parse_utils.py:280-286 | the node list holds each input or output name exactly once |
| Metadata.EdgeEndsAreNodes | utils/parse_utils.py:274-321 | both ends of every edge are nodes |
| Structured.StructuredSas.constructor | utils/parse_utils.py:13-22 | a new object holds the raw script and no result yet |
| Structured.StructuredSas.CleanInitialCode | utils/parse_utils.py:24-26 | stores the cleaned script and changes nothing else |
| Structured.StructuredSas.ParseSasScript | utils/parse_utils.py:28-105 | stores the parsed records of the stored script, ordered by position and none empty, and changes nothing else |
| Structured.StructuredSas.MergeIdentityRuns | utils/parse_utils.py:107-154 | stores the merged records and changes nothing else |
| Structured.StructuredSas.AssignSubgraphIds | utils/parse_utils.py:156-182 | relabels the stored records by a component numbering of their graph and changes nothing else |
| Structured.StructuredSas.CleanRunCode | utils/parse_utils.py:184-227 | cleans the code of every stored record and changes nothing else |
| Structured.StructuredSas.GetMetadata | utils/parse_utils.py:248-272 | stores the sorted inputs and outputs; stores the sub-graph list when it can be sorted, and otherwise reports the error and leaves it as it was |
| Structured.StructuredSas.GetMetadataNetwork | utils/parse_utils.py:274-321 | stores each dataset name once as a node and the run-by-run edge list; when the stored lists are the sorted ones, both ends of every edge are nodes |
| Structured.StructuredSas.ExecuteAllProcessingSteps | utils/parse_utils.py:228-234 | runs the steps in order: the records are the parsed runs of the cleaned script, merged, then each labelled by a component numbering of the merged graph and its code cleaned; the sorted inputs and outputs are stored; it fails iff the sub-graph list cannot be sorted, and otherwise stores that list, each node once, and the edge list, whose ends are all nodes |
| Mermaid.ChartNameInjective | utils/dev_MermaidMD.py:18 | different labels give different sub-graph names, `ChartNone` included |
| Mermaid.ProcIdInjective | utils/dev_MermaidMD.py:15 | different runs get different process ids |
| Mermaid.NodeLabel | utils/dev_MermaidMD.py:16 | a process label has no newline and only characters of the code or spaces |
| Mermaid.Ids | utils/dev_MermaidMD.py:20-30 | every name seen gets an id, and only those |
| Mermaid.IdsFirstSeen | utils/dev_MermaidMD.py:20-30 | the i-th distinct name, in order of first appearance, gets id `prefix + i` |
| Mermaid.IdsInjective | utils/dev_MermaidMD.py:20-30 | different names get different ids |
| Mermaid.DeclsMembers | utils/dev_MermaidMD.py:24-30 | a declaration is in a block iff it pairs a listed name with that name's id |
| Mermaid.LinksCount | utils/dev_MermaidMD.py:23-29 | there is one link per input occurrence and one per output occurrence |
| Mermaid.RecordDeclared | utils/dev_MermaidMD.py:11-32 | every run's process node and every one of its dataset nodes are declared in the block of the run's sub-graph |
| Mermaid.ChartKeysSnoc | utils/dev_MermaidMD.py:36-45 | blocks appear in order of first use of their sub-graph |
| Mermaid.GenerateMermaidMarkdown | utils/dev_MermaidMD.py:6-53 | the text is the header, one block per sub-graph in order of first use listing each of its declarations once, the stacking links between consecutive blocks, every link in run order, and the footer |
| StreamlitLink.NameMapLastWins | utils/streamlit_utils.py:26 | a name maps to the number of its last node |
| StreamlitLink.PreparedDataResolves | utils/streamlit_utils.py:7-39 | nodes are numbered 1, 2, ... in list order; edges too, and each edge's source and target number nodes carrying its end names |
| StreamlitLink.PreparedDataUniqueNames | utils/streamlit_utils.py:26-39 | with distinct node names, an edge points at node `k` iff that node carries the end's name |
| StreamlitLink.StLink.constructor | utils/streamlit_utils.py:3-5 | a new link holds the processed object and no data |
| StreamlitLink.StLink.PrepareData | utils/streamlit_utils.py:7-49 | stores the node and edge records built from the object's nodes and edges |

## Left out

- Extract.SetNames: its own contract says only that every name found is a token of the code. The scan order and the first-match rule are stated by `Extract.SetNamesFirst` and `Extract.SetNamesNoMatch`.
- Extract.MergeNames: its own contract says only that every name found is a token of the code. The group-by-group scan and the skipped `(IN=...)` qualifier are stated by `Extract.MergeNamesFirst`, `Extract.MergeTokensFirst` and `Extract.MergeQualifierSkipped`.
- Extract.ProcOptions: its own contract says only that every name found is a token of the code. The first-match rule and the keyword of each option are stated by `Extract.ProcOptionsFirst`.
- Segment.RunsFrom: its own contract gives only the odd length and the keyword pieces. `Segment.RunsRoundTrip` states the rest.

- Reading and writing files (`save_results`, the `__main__` blocks), and the Streamlit page in `main.py` (lines 49-77), with the order in which it calls the steps: these are I/O and UI.
- `utils/network_utils.py` is not part of this model. It draws the graph with networkx and plotly.
- Subgraph.Components: networkx numbers the components in its own node order. The model fixes no order: any numbering of the components by `0 .. n-1` is allowed.
- The order of Python set and dictionary iteration (`list(inputs)`, `list(set(...))` of nodes, the declarations inside a Mermaid block) is left open, as described above.
- A general regular-expression engine: each pattern the code uses is a dedicated scanner, and `IGNORECASE`/`\w` are ASCII-only.
- `mermaid_structure` is never assigned by the code; the field is kept and never changes.
- `entry.get("run_code", "")`: every record here has a code field, so the default is never used.
- Structured.StructuredSas.AssignSubgraphIds: the code updates the record dictionaries in place, and these are shared with `pre_processed`. The model keeps the records as values, so that aliasing is not captured.
- Mermaid.NodeLabel: characters that Mermaid treats specially inside `["..."]` are not escaped, as in the code. The model does not say what Mermaid does with them.
- Metadata.SubgraphList: Python raises `TypeError` when sorting `None` next to numbers, and `KeyError` when a record has no label. The model returns these as error values.
- Mermaid.GenerateMermaidMarkdown requires every run to carry a label; the code raises `KeyError` otherwise.
- StreamlitLink.StLink.PrepareData requires every edge end to be a node name; the code raises `KeyError` otherwise.
