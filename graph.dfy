/** The decoration and grouping passes of internal/graph/graph.go over an
    already-parsed DOT graph.

    The parsed graph is a `DotGraph` object whose methods update it in place,
    as the Go functions update the `*gographviz.Graph` they are given. Each
    method is proved against a pure function on the value `Graph`, and the
    properties of the passes are proved about those functions (here and in
    module GraphLemmas). */
module Graphs {
  import opened Wrappers
  import opened Strings
  import opened Configs

  /** A DOT attribute list: attribute name to its (possibly quoted) value. */
  type Attrs = map<string, string>

  /** A parsed node: its identifier and its attributes. */
  datatype Node = Node(name: string, attrs: Attrs)

  /** A parsed edge between two node (or subgraph) identifiers. */
  datatype Edge = Edge(src: string, dst: string, attrs: Attrs)

  /** The parsed graph: graph attributes, nodes in their parse order, edges
      in their parse order, and subgraphs by name. */
  datatype Graph = Graph(attrs: Attrs, nodes: seq<Node>, edges: seq<Edge>, subgraphs: map<string, Attrs>)

  /** Provider prefixes recognised as resource labels. */
  const KnownProviders: seq<string> := ["azurerm", "aws", "gcp"]

  /** The label position used when preparing a graph for printing. */
  const LabelLocation: string := "b"

  /** The directory the node icons are looked up in. */
  const GlobalImagePath: string := "internal/icons/azurerm"

  // ---------------------------------------------------------------------
  // Attribute access and the predicates the passes test
  // ---------------------------------------------------------------------

  /** Go's `m[key]` on a map: the stored value, or "" when absent. */
  function Get(m: Attrs, key: string): (v: string)
    ensures key in m ==> v == m[key]
    ensures key !in m ==> v == ""
  {
    if key in m then m[key] else ""
  }

  /** The node's `label` attribute with its surrounding quotes removed. */
  function TrimmedLabel(n: Node): (r: string)
    ensures Unquoted(r)
  {
    TrimQuotes(Get(n.attrs, "label"))
  }

  /** Specification of IsResourceNode: the label starts with a known
      provider followed by an underscore. */
  predicate IsResourceLabel(text: string) {
    exists k :: 0 <= k < |KnownProviders| && HasPrefix(text, KnownProviders[k] + "_")
  }

  /** Checks whether a label belongs to a resource node, trying each known
      provider prefix in turn. */
  method IsResourceNode(text: string) returns (b: bool)
    ensures b <==> IsResourceLabel(text)
  {
    for k := 0 to |KnownProviders|
      invariant forall j :: 0 <= j < k ==> !HasPrefix(text, KnownProviders[j] + "_")
    {
      if HasPrefix(text, KnownProviders[k] + "_") {
        return true;
      }
    }
    return false;
  }

  /** Linear membership search over a string slice. */
  method Contains(slice: seq<string>, item: string) returns (b: bool)
    ensures b <==> item in slice
  {
    for k := 0 to |slice|
      invariant item !in slice[..k]
    {
      if slice[k] == item {
        return true;
      }
    }
    return false;
  }

  /** A node that gets an icon: its trimmed label is a resource label and
      contains a dot. */
  predicate IsIconNode(n: Node) {
    IsResourceLabel(TrimmedLabel(n)) && HasDot(TrimmedLabel(n))
  }

  /** The quoted icon file name for a resource label: `"<type>.png"`. */
  function IconFile(text: string): string
  {
    Quote(FirstField(text) + ".png")
  }

  /** A node that is turned into a cluster: its trimmed label has a dot and
      the text before the dot is one of the grouping types. */
  predicate IsGroupingNode(n: Node, groups: seq<string>) {
    HasDot(TrimmedLabel(n)) && FirstField(TrimmedLabel(n)) in groups
  }

  /** The subgraph name a grouping node is turned into. */
  function ClusterName(name: string): (r: string)
    ensures HasPrefix(r, "cluster_") && r[|"cluster_"|..] == name
  {
    "cluster_" + name
  }

  /** The valid label positions: top, center and bottom. */
  predicate IsValidPosition(position: string) {
    position == "t" || position == "c" || position == "b"
  }

  // ---------------------------------------------------------------------
  // Specification functions, one per pass
  // ---------------------------------------------------------------------

  /** SetGraphGlobalImagePath: the graph's `imagepath` is the quoted path;
      nothing else changes. */
  function WithImagePath(g: Graph, path: string): (r: Graph)
    ensures r.nodes == g.nodes && r.edges == g.edges && r.subgraphs == g.subgraphs
    ensures "imagepath" in r.attrs && r.attrs["imagepath"] == Quote(path)
    ensures r.attrs - {"imagepath"} == g.attrs - {"imagepath"}
  {
    g.(attrs := g.attrs["imagepath" := Quote(path)])
  }

  /** AddImageLabel on one node: an icon node gets `image` set to its quoted
      icon file and `shape` set to `"none"`; every other attribute, and
      every attribute of every other node, stays as it was. */
  function ImageLabelledNode(n: Node): (r: Node)
    ensures r.name == n.name
    ensures r.attrs - {"image", "shape"} == n.attrs - {"image", "shape"}
    ensures IsIconNode(n) ==> "image" in r.attrs && r.attrs["image"] == IconFile(TrimmedLabel(n))
    ensures IsIconNode(n) ==> "shape" in r.attrs && r.attrs["shape"] == Quote("none")
    ensures !IsIconNode(n) ==> r == n
  {
    if IsIconNode(n) then
      n.(attrs := n.attrs["image" := IconFile(TrimmedLabel(n))]["shape" := Quote("none")])
    else
      n
  }

  /** AddImageLabel on the whole graph: every node decorated, edges,
      subgraphs and graph attributes untouched. */
  function ImageLabelled(g: Graph): (r: Graph)
    ensures r.attrs == g.attrs && r.edges == g.edges && r.subgraphs == g.subgraphs
    ensures |r.nodes| == |g.nodes|
    ensures forall i :: 0 <= i < |g.nodes| ==> r.nodes[i] == ImageLabelledNode(g.nodes[i])
  {
    g.(nodes := seq(|g.nodes|, i requires 0 <= i < |g.nodes| => ImageLabelledNode(g.nodes[i])))
  }

  /** PositionLabelTo on one node: `labelloc` becomes the quoted position. */
  function PositionedNode(n: Node, position: string): (r: Node)
    ensures r.name == n.name
    ensures r.attrs - {"labelloc"} == n.attrs - {"labelloc"}
    ensures "labelloc" in r.attrs && r.attrs["labelloc"] == Quote(position)
  {
    n.(attrs := n.attrs["labelloc" := Quote(position)])
  }

  /** PositionLabelTo on the whole graph: an invalid position changes
      nothing; a valid one repositions every node and touches nothing
      else. */
  function LabelPositioned(g: Graph, position: string): (r: Graph)
    ensures r.attrs == g.attrs && r.edges == g.edges && r.subgraphs == g.subgraphs
    ensures |r.nodes| == |g.nodes|
    ensures !IsValidPosition(position) ==> r == g
    ensures IsValidPosition(position) ==>
              forall i :: 0 <= i < |g.nodes| ==> r.nodes[i] == PositionedNode(g.nodes[i], position)
  {
    if !IsValidPosition(position) then g
    else g.(nodes := seq(|g.nodes|, i requires 0 <= i < |g.nodes| => PositionedNode(g.nodes[i], position)))
  }

  /** The attribute list of the cluster made for a node with trimmed label
      `text`, starting from the subgraph's previous attributes: `style` is
      `filled` (the `rounded` set first is overwritten), `label` is the
      quoted label and `fillcolor` is `lightgray`. */
  function ClusterAttrs(previous: Attrs, text: string): (r: Attrs)
    ensures r.Keys == previous.Keys + {"style", "label", "fillcolor"}
    ensures r["style"] == "filled" && r["label"] == Quote(text) && r["fillcolor"] == "lightgray"
    ensures forall k :: k in previous && k !in {"style", "label", "fillcolor"} ==> r[k] == previous[k]
  {
    previous["style" := "filled"]["label" := Quote(text)]["fillcolor" := "lightgray"]
  }

  /** One edge with every endpoint equal to `from` replaced by `to`. */
  function RenamedEdge(e: Edge, from: string, to: string): (r: Edge)
    ensures r.attrs == e.attrs
    ensures r.src == (if e.src == from then to else e.src)
    ensures r.dst == (if e.dst == from then to else e.dst)
  {
    Edge(if e.src == from then to else e.src, if e.dst == from then to else e.dst, e.attrs)
  }

  /** Every edge renamed, in order. */
  function RenamedEdges(es: seq<Edge>, from: string, to: string): (r: seq<Edge>)
    ensures |r| == |es|
    ensures forall i :: 0 <= i < |es| ==> r[i] == RenamedEdge(es[i], from, to)
  {
    seq(|es|, i requires 0 <= i < |es| => RenamedEdge(es[i], from, to))
  }

  /** The previous attributes of subgraph `name`, or none when it is new
      (AddSubGraph keeps an existing subgraph). */
  function SubgraphAttrs(g: Graph, name: string): (r: Attrs)
    ensures name in g.subgraphs ==> r == g.subgraphs[name]
    ensures name !in g.subgraphs ==> r == map[]
  {
    if name in g.subgraphs then g.subgraphs[name] else map[]
  }

  /** One iteration of ConvertNodesToSubgraphs' node loop, for node `n`. */
  function ConvertStep(g: Graph, n: Node, groups: seq<string>): (r: Graph)
    ensures r.attrs == g.attrs && r.nodes == g.nodes && |r.edges| == |g.edges|
    ensures !IsGroupingNode(n, groups) ==> r == g
    ensures IsGroupingNode(n, groups) ==>
              && r.subgraphs == g.subgraphs[ClusterName(n.name) := ClusterAttrs(SubgraphAttrs(g, ClusterName(n.name)), TrimmedLabel(n))]
              && r.edges == RenamedEdges(g.edges, n.name, ClusterName(n.name))
  {
    if !IsGroupingNode(n, groups) then g
    else
      var name := ClusterName(n.name);
      g.(subgraphs := g.subgraphs[name := ClusterAttrs(SubgraphAttrs(g, name), TrimmedLabel(n))],
         edges := RenamedEdges(g.edges, n.name, name))
  }

  /** The node loop of ConvertNodesToSubgraphs run over `ns`, in order. */
  function ConvertAll(g: Graph, ns: seq<Node>, groups: seq<string>): (r: Graph)
    ensures r.attrs == g.attrs && r.nodes == g.nodes && |r.edges| == |g.edges|
    decreases |ns|
  {
    if ns == [] then g
    else ConvertStep(ConvertAll(g, ns[..|ns| - 1], groups), ns[|ns| - 1], groups)
  }

  /** ConvertNodesToSubgraphs: no configuration changes nothing; otherwise
      every node of the graph is processed in order. */
  function Converted(g: Graph, cfg: Option<Config>): (r: Graph)
    ensures r.attrs == g.attrs && r.nodes == g.nodes && |r.edges| == |g.edges|
    ensures cfg.None? ==> r == g
  {
    match cfg
    case None => g
    case Some(c) => ConvertAll(g, g.nodes, c.groupingElements)
  }

  /** The decoration sequence of PrepareGraphForPrinting on the parsed
      graph: image path, icons, then labels at the bottom. */
  function Prepared(g: Graph): (r: Graph)
  {
    LabelPositioned(ImageLabelled(WithImagePath(g, GlobalImagePath)), LabelLocation)
  }

  /** The body of AddImageLabel's loop for one node. */
  method AddImageLabelTo(node: Node) returns (r: Node)
    ensures r == ImageLabelledNode(node)
  {
    r := node;
    var text := Get(node.attrs, "label");
    text := TrimQuotes(text);
    var isResource := IsResourceNode(text);
    assert isResource && HasDot(text) <==> IsIconNode(node);
    if isResource {
      if !HasDot(text) {
        return;
      }
      var imageLabel := FirstField(text) + ".png";
      r := r.(attrs := r.attrs["image" := Quote(imageLabel)]);
      r := r.(attrs := r.attrs["shape" := Quote("none")]);
    }
  }

  // ---------------------------------------------------------------------
  // The parsed graph, updated in place
  // ---------------------------------------------------------------------

  /** A parsed `*gographviz.Graph`; the passes rewrite its fields. */
  class DotGraph {
    var attrs: Attrs
    var nodes: seq<Node>
    var edges: seq<Edge>
    var subgraphs: map<string, Attrs>

    /** The graph the object currently holds. */
    ghost function Value(): Graph
      reads this
    {
      Graph(attrs, nodes, edges, subgraphs)
    }

    /** The result of parsing: a graph holding `g`. */
    constructor (g: Graph)
      ensures Value() == g
    {
      attrs, nodes, edges, subgraphs := g.attrs, g.nodes, g.edges, g.subgraphs;
    }

    /** Sets the graph-level `imagepath` attribute to the quoted path. */
    method SetGraphGlobalImagePath(path: string)
      modifies this
      ensures Value() == WithImagePath(old(Value()), path)
    {
      attrs := attrs["imagepath" := Quote(path)];
    }

    /** Gives every resource node with a dotted label an icon and no shape. */
    method AddImageLabel()
      modifies this
      ensures Value() == ImageLabelled(old(Value()))
    {
      for i := 0 to |nodes|
        invariant attrs == old(attrs) && edges == old(edges) && subgraphs == old(subgraphs)
        invariant |nodes| == |old(nodes)|
        invariant forall j :: 0 <= j < i ==> nodes[j] == ImageLabelledNode(old(nodes)[j])
        invariant forall j :: i <= j < |nodes| ==> nodes[j] == old(nodes)[j]
      {
        var node := AddImageLabelTo(nodes[i]);
        nodes := nodes[i := node];
      }
      assert nodes == ImageLabelled(old(Value())).nodes;
    }

    /** Sets every node's `labelloc` to the quoted position, when the
        position is one of "t", "c" and "b". */
    method PositionLabelTo(position: string)
      modifies this
      ensures Value() == LabelPositioned(old(Value()), position)
    {
      if position != "t" && position != "c" && position != "b" {
        return;
      }
      for i := 0 to |nodes|
        invariant attrs == old(attrs) && edges == old(edges) && subgraphs == old(subgraphs)
        invariant |nodes| == |old(nodes)|
        invariant forall j :: 0 <= j < i ==> nodes[j] == PositionedNode(old(nodes)[j], position)
        invariant forall j :: i <= j < |nodes| ==> nodes[j] == old(nodes)[j]
      {
        var node := nodes[i];
        nodes := nodes[i := node.(attrs := node.attrs["labelloc" := Quote(position)])];
      }
    }

    /** Turns every grouping node into a `cluster_<name>` subgraph and
        redirects the edges at that node to the subgraph. */
    method ConvertNodesToSubgraphs(cfg: Option<Config>)
      modifies this
      ensures Value() == Converted(old(Value()), cfg)
    {
      if cfg.None? {
        return;
      }
      var groups := cfg.value.groupingElements;
      ghost var g0 := Value();
      for i := 0 to |nodes|
        invariant nodes == g0.nodes
        invariant Value() == ConvertAll(g0, g0.nodes[..i], groups)
      {
        assert g0.nodes[..i + 1][..i] == g0.nodes[..i];
        ConvertNodeToSubgraph(nodes[i], groups);
      }
      assert g0.nodes[..|g0.nodes|] == g0.nodes;
    }

    /** The body of ConvertNodesToSubgraphs' node loop for one node. */
    method ConvertNodeToSubgraph(node: Node, groups: seq<string>)
      modifies this
      ensures Value() == ConvertStep(old(Value()), node, groups)
    {
      var text := Get(node.attrs, "label");
      text := TrimQuotes(text);
      if !HasDot(text) {
        return;
      }
      var nodeType := FirstField(text);
      var grouping := Contains(groups, nodeType);
      if grouping {
        var subgraphName := "cluster_" + node.name;
        // AddSubGraph keeps an existing subgraph of that name.
        var sg := if subgraphName in subgraphs then subgraphs[subgraphName] else map[];
        sg := sg["style" := "rounded"]["label" := Quote(text)];
        sg := sg["label" := Quote(text)]["style" := "filled"]["fillcolor" := "lightgray"];
        assert sg == ClusterAttrs(SubgraphAttrs(old(Value()), subgraphName), text);
        subgraphs := subgraphs[subgraphName := sg];
        RedirectEdges(node.name, subgraphName);
      }
    }

    /** Points every edge endpoint equal to `from` at `to` instead. */
    method RedirectEdges(from: string, to: string)
      modifies this
      ensures Value() == old(Value()).(edges := RenamedEdges(old(edges), from, to))
    {
      for j := 0 to |edges|
        invariant nodes == old(nodes) && attrs == old(attrs) && subgraphs == old(subgraphs)
        invariant |edges| == |old(edges)|
        invariant forall k :: 0 <= k < j ==> edges[k] == RenamedEdge(old(edges)[k], from, to)
        invariant forall k :: j <= k < |edges| ==> edges[k] == old(edges)[k]
      {
        var edge := edges[j];
        if edge.src == from {
          edge := edge.(src := to);
        }
        if edge.dst == from {
          edge := edge.(dst := to);
        }
        edges := edges[j := edge];
      }
      assert edges == RenamedEdges(old(edges), from, to);
    }

    /** The decoration steps PrepareGraphForPrinting applies once the graph
        is parsed. */
    method PrepareGraphForPrinting()
      modifies this
      ensures Value() == Prepared(old(Value()))
    {
      SetGraphGlobalImagePath(GlobalImagePath);
      AddImageLabel();
      PositionLabelTo(LabelLocation);
    }
  }
}
