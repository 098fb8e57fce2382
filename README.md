# terraview graph preparation and state lookups, in Dafny

This project models the two pieces of logic at the core of terraview, a
tool that draws a diagram from `terraform graph` output:

- **Graph decoration and grouping** (`internal/graph/graph.go`). The parsed
  DOT graph is a `DotGraph` object holding graph attributes, nodes (a name
  plus an attribute map), edges (source, destination, attributes) and
  subgraphs (a name to an attribute map). The passes update it in place, as
  the Go code updates the `*gographviz.Graph`:
  - `SetGraphGlobalImagePath` sets the graph's `imagepath`;
  - `AddImageLabel` gives every resource node with a dotted label an icon
    (`image` = `"<type>.png"`) and `shape` = `"none"`;
  - `PositionLabelTo` sets `labelloc` on every node when the position is
    `t`, `c` or `b`;
  - `ConvertNodesToSubgraphs` makes a `cluster_<name>` subgraph for every
    node whose type (the trimmed label up to the first dot) is a configured
    grouping type, labels it, and redirects the edges at that node to it;
  - `PrepareGraphForPrinting` chains the first three on the parsed graph.

  Each method is verified against a pure function on the graph value
  (`WithImagePath`, `ImageLabelled`, `LabelPositioned`, `Converted`,
  `Prepared`). Module `GraphLemmas` proves what the passes promise about
  those functions: which attributes change and to what, that nothing else
  changes, and that edge counts are preserved. They also prove that
  `AddImageLabel`, `PositionLabelTo` and the preparation pipeline are
  idempotent, and that a second `ConvertNodesToSubgraphs` changes no edge,
  no subgraph name and no modelled cluster attribute.
- **State lookups** (`internal/tfstatereader/tfstate.go`). These are
  `isURL`, `IsCreatedWithList`, `GetListOfNamesForResource` and
  `GetImportantAttributes`. The answers of the state library become
  parameters:
  - the address list of `State.List()` or its error;
  - the attribute map of `State.Lookup(resource)` or its error;
  - the configuration, as an `Option`.

The configuration record carries both `groupingElements` and
`importantAttributes`. `internal/config/config.go:11-13` declares only
`GroupingElements`, but `GetImportantAttributes` reads
`cfg.ImportantAttributes` with fields `Name` and `Attributes`
(`internal/tfstatereader/tfstate.go:73-75`). The model follows the code
that uses the record.

Files:
- `wrappers.dfy`: Option and Result.
- `strings.dfy`: the `strings`/`fmt` helpers used: HasPrefix, Trim with
  cutset `"`, Split on `.`, quoting.
- `configs.dfy`: the configuration record.
- `graph.dfy`: the graph model, specification functions and the `DotGraph`
  class.
- `graph_lemmas.dfy`: properties of the graph passes.
- `tfstate.dfy`: the state lookups and their properties.

## Model

| member | source | states |
|---|---|---|
| `Graphs.IsResourceNode` | internal/graph/graph.go:53-60 | returns true exactly when the label starts with some known provider followed by `_` |
| `GraphLemmas.ResourceLabelPrefixes` | internal/graph/graph.go:23 | a resource label is exactly one starting with `azurerm_`, `aws_` or `gcp_` |
| `Graphs.Contains` | internal/graph/graph.go:242-249 | returns true exactly when the item equals some element of the slice |
| `Strings.TrimQuotes` | internal/graph/graph.go:76 | the trimmed label neither starts nor ends with a double quote |
| `Strings.TrimQuotesSlice` | internal/graph/graph.go:76 | the trimmed label is a slice of the label outside which there are only double quotes |
| `Strings.FirstField` | internal/graph/graph.go:81-89 | the type is a dot-free prefix of the label that is the whole label or is followed by a dot |
| `Strings.FirstFieldProper` | internal/graph/graph.go:81-86 | the label has at least two dot-separated parts exactly when its first part is a proper prefix |
| `Graphs.TrimmedLabel` | internal/graph/graph.go:73-76 | a node's label read with its quotes removed has no quote at either end |
| `Graphs.WithImagePath` | internal/graph/graph.go:63-65 | the graph's `imagepath` becomes the quoted path; nodes, edges, subgraphs and other graph attributes are unchanged |
| `Graphs.DotGraph.SetGraphGlobalImagePath` | internal/graph/graph.go:63-65 | the new graph is `WithImagePath` of the old one |
| `Graphs.ImageLabelledNode` | internal/graph/graph.go:73-95 | the name and every attribute other than `image`/`shape` are kept; an icon node gets `image` = `"<type>.png"` and `shape` = `"none"`; any other node is unchanged |
| `Graphs.AddImageLabelTo` | internal/graph/graph.go:73-95 | one iteration of the loop computes exactly `ImageLabelledNode` |
| `Graphs.ImageLabelled` | internal/graph/graph.go:70-98 | every node is decorated in place and the node count is preserved; edges, subgraphs and graph attributes are unchanged |
| `Graphs.DotGraph.AddImageLabel` | internal/graph/graph.go:70-98 | the new graph is `ImageLabelled` of the old one |
| `GraphLemmas.ImageLabelledNodeIdempotent` | internal/graph/graph.go:73-95 | decorating a node twice equals decorating it once |
| `GraphLemmas.ImageLabelledIdempotent` | internal/graph/graph.go:70-98 | running AddImageLabel twice equals running it once |
| `Graphs.PositionedNode` | internal/graph/graph.go:111 | a node's `labelloc` becomes the quoted position; its name and other attributes are kept |
| `Graphs.LabelPositioned` | internal/graph/graph.go:102-113 | an invalid position leaves the graph unchanged; a valid one sets every node's `labelloc` and touches nothing else |
| `Graphs.DotGraph.PositionLabelTo` | internal/graph/graph.go:102-113 | the new graph is `LabelPositioned` of the old one |
| `GraphLemmas.LabelPositionedIdempotent` | internal/graph/graph.go:102-113 | PositionLabelTo with the same position twice equals once |
| `Graphs.DotGraph.PrepareGraphForPrinting` | internal/graph/graph.go:170-172 | the new graph is `Prepared` of the parsed one: image path, then icons, then labels at `b` |
| `GraphLemmas.PreparedNodeEffect` | internal/graph/graph.go:170-172 | a prepared node keeps its name and label and has `labelloc` = `"b"`; an icon node gets its icon and `shape` = `"none"`; any other node keeps every attribute but `labelloc`; every attribute other than `image`, `shape` and `labelloc` is kept |
| `GraphLemmas.PreparedEffect` | internal/graph/graph.go:170-172 | a prepared graph has `imagepath` = `"internal/icons/azurerm"`, keeps its other graph attributes, edges and subgraphs, and has each node prepared |
| `GraphLemmas.PreparedIdempotent` | internal/graph/graph.go:170-172 | preparing an already prepared graph changes nothing |
| `Graphs.ClusterName` | internal/graph/graph.go:198 | the subgraph name is `cluster_` followed by the node's name |
| `Graphs.ClusterAttrs` | internal/graph/graph.go:202-217 | the cluster gets `style` = `filled` (the earlier `rounded` is overwritten), `label` = the quoted trimmed label and `fillcolor` = `lightgray`; other keys are kept |
| `Graphs.RenamedEdge` | internal/graph/graph.go:231-236 | an endpoint equal to the node's name becomes the subgraph name; the other endpoint and the edge attributes are kept |
| `Graphs.RenamedEdges` | internal/graph/graph.go:230-237 | every edge is renamed in place and the edge count is preserved |
| `Graphs.ConvertStep` | internal/graph/graph.go:185-238 | a node without a dot or with a non-grouping type changes nothing; a grouping node sets its cluster's attributes and redirects its edges; nodes and graph attributes are kept |
| `Graphs.ConvertAll` | internal/graph/graph.go:185-239 | the node loop keeps nodes, graph attributes and the number of edges |
| `Graphs.Converted` | internal/graph/graph.go:178-183 | without a configuration the graph is unchanged |
| `Graphs.DotGraph.ConvertNodesToSubgraphs` | internal/graph/graph.go:178-240 | the new graph is `Converted` of the old one |
| `Graphs.DotGraph.ConvertNodeToSubgraph` | internal/graph/graph.go:186-238 | one iteration of the node loop computes exactly `ConvertStep` |
| `Graphs.DotGraph.RedirectEdges` | internal/graph/graph.go:230-237 | the edge loop renames exactly as `RenamedEdges` and changes nothing else |
| `GraphLemmas.ConvertAllEdges` | internal/graph/graph.go:230-237 | after the node loop every edge keeps its position and attributes, and each endpoint is redirected by the grouping nodes in order |
| `GraphLemmas.RenamedOther` | internal/graph/graph.go:230-237 | an endpoint that names no grouping node is never changed |
| `GraphLemmas.RenamedGroupingName` | internal/graph/graph.go:230-237 | an endpoint naming a grouping node ends as `cluster_<name>`, provided no grouping node is itself named `cluster_...` |
| `GraphLemmas.ChainedRedirect` | internal/graph/graph.go:230-237 | without that proviso an endpoint can be redirected twice (`x` becomes `cluster_cluster_x`) |
| `GraphLemmas.ConvertedEdges` | internal/graph/graph.go:185-237 | the pass preserves the edge count and edge attributes; endpoints naming grouping nodes become `cluster_<name>`; all other endpoints are unchanged |
| `GraphLemmas.ClusterNames` | internal/graph/graph.go:198 | a name is a cluster name exactly when it is `cluster_` followed by a grouping node's name |
| `GraphLemmas.ConvertAllSubgraphs` | internal/graph/graph.go:198-199 | the subgraph names become the old ones plus one cluster name per grouping node; every other subgraph keeps its attributes |
| `GraphLemmas.ConvertAllClusterAttrs` | internal/graph/graph.go:198-217 | with unique node names, each grouping node's cluster has `label` = its quoted trimmed label, `style` = `filled` and `fillcolor` = `lightgray` |
| `GraphLemmas.ConvertedSubgraphs` | internal/graph/graph.go:185-227 | the pass adds exactly the grouping nodes' clusters, each labelled with the node's quoted trimmed label, and keeps every other subgraph |
| `GraphLemmas.ClusterLabelRoundTrip` | internal/graph/graph.go:187-214 | a cluster's label read back with its quotes trimmed is the grouping node's trimmed label |
| `GraphLemmas.ConvertAllNoGrouping` | internal/graph/graph.go:190-196 | when no node is a grouping node the graph is unchanged |
| `GraphLemmas.ConvertedIdempotent` | internal/graph/graph.go:178-240 | with unique node names and no grouping node named `cluster_...`, a second pass changes no edge, no subgraph name and no modelled cluster attribute |
| `TfState.IsUrlPrefixes` | internal/tfstatereader/tfstate.go:44-48 | a path is a URL exactly when it starts with `http://`, `https://`, `s3://`, `gs://`, `azurerm://` or `remote://` |
| `TfState.UrlHasSchemeSeparator` | internal/tfstatereader/tfstate.go:27-31 | every URL path contains `://`, so a path without it is read as a local file |
| `TfState.InstanceTestSimplifies` | internal/tfstatereader/tfstate.go:103 | the `resource["` test is subsumed: an address passes exactly when it starts with `resource[` |
| `TfState.InstancesOf` | internal/tfstatereader/tfstate.go:117-122 | the collected names are listed addresses that pass the instance test, no more of them than listed |
| `TfState.InstancesOfCounts` | internal/tfstatereader/tfstate.go:117-122 | every instance address is kept as often as it is listed and every other address is dropped |
| `TfState.InstancesOfNonEmpty` | internal/tfstatereader/tfstate.go:118-126 | the collected names are non-empty exactly when some listed address passes the instance test |
| `TfState.IsCreatedWithList` | internal/tfstatereader/tfstate.go:95-108 | true exactly when listing succeeds and some listed address passes the instance test; false on a listing error |
| `TfState.GetListOfNamesForResource` | internal/tfstatereader/tfstate.go:111-129 | a listing error gives ListingFailed; no instance gives NoResourcesFound; otherwise the instance addresses in list order |
| `TfState.CreatedWithListIffNamesListed` | internal/tfstatereader/tfstate.go:95-128 | on the same listing, IsCreatedWithList holds exactly when GetListOfNamesForResource succeeds |
| `TfState.FirstEntryIndex` | internal/tfstatereader/tfstate.go:73-84 | finds the first configuration entry whose name is the resource type, or reports that none matches |
| `TfState.AttributeLines` | internal/tfstatereader/tfstate.go:75-82 | there are no more lines than configured attributes, and none exactly when the resource has none of them |
| `TfState.AttributeLinesMembers` | internal/tfstatereader/tfstate.go:75-82 | every line is `attr: value` for a configured attribute the resource has, and every such attribute gives its line |
| `TfState.GetImportantAttributes` | internal/tfstatereader/tfstate.go:51-92 | returns exactly `ImportantAttributes`: config check, lookup, first matching entry, attributes in order, emptiness check |
| `TfState.ImportantAttributesErrors` | internal/tfstatereader/tfstate.go:52-65 | no configuration gives ConfigNotLoaded; a failed lookup gives ResourceNotFound |
| `TfState.ImportantAttributesOutcome` | internal/tfstatereader/tfstate.go:70-91 | on success there are between 1 and that entry's attribute-count lines, each `attr: value`; it fails with NoImportantAttributes exactly when no entry matches or no attribute is present |

## Left out

- `ObtainGraph` and `SaveGraphAsJPEG` (`internal/graph/graph.go`) run `terraform` and `dot` as child processes and use temporary files. They are not modelled. `PrepareGraphForPrinting` is modelled from the parsed graph on: obtaining and parsing the graph, and their errors, are not modelled.
- DOT parsing and serialisation by gographviz are not modelled. Nodes, edges and subgraphs are plain values.
- `Attrs.Add`'s attribute-name check is not modelled; the source ignores its error, and every name used is a valid one.
- The parent relation that `AddSubGraph` records (always under `"G"`) is not modelled.
- `ConvertNodesToSubgraphs` renames `edge.Src`/`edge.Dst` but the library's source and destination indexes are left stale. Those indexes are not modelled.
- Graphs.ClusterAttrs: does not model the `statement` attribute (graph.go:220-223), where the source appends the node's DOT text `"<name>" [label="<label>"]` to the cluster; the model's clusters carry only `style`, `label` and `fillcolor`.
- GraphLemmas.ConvertedIdempotent: covers only the modelled attributes. The source's `statement` attribute (graph.go:220-223) has the node's DOT text appended again on every run, so the Go function as a whole is not idempotent.
- Graphs.ImageLabelledNode: models `filepath.Join(parts[0] + ".png")` as the plain text. `filepath.Clean` would also collapse `/`, `.` and `..` path elements, which resource type names do not contain.
- `LoadConfig`/`GetConfig` (YAML decoding, file reading, the lock-guarded global) are not modelled. The configuration is an `Option<Config>` parameter, `None` meaning none loaded.
- `NewTFStateHandler` reads the state from a file or a URL, and `State.List`/`State.Lookup` come from the state library. None of these is modelled. Their answers are parameters.
- `GetImportantAttributes` asserts that the looked-up value is a map; this is not modelled, and neither is the panic when it is not. Attribute values are strings, so `%s` formatting of non-string values is not modelled.
- `log.Printf` and `fmt.Println` messages are not modelled; they have no effect on results.
- `render.SaveGraphAs`, `cmd/print.go` and `main.go` are not modelled: they are process execution, CLI wiring and a demo program.
