/** Properties of the graph passes of internal/graph/graph.go, proved about
    the specification functions of module Graphs that the in-place methods
    of `DotGraph` are verified against. */
module GraphLemmas {
  import opened Wrappers
  import opened Strings
  import opened Configs
  import opened Graphs

  // ---------------------------------------------------------------------
  // Resource labels
  // ---------------------------------------------------------------------

  /** A resource label is one that starts with `azurerm_`, `aws_` or
      `gcp_`. */
  lemma ResourceLabelPrefixes(text: string)
    ensures IsResourceLabel(text) <==>
              HasPrefix(text, "azurerm_") || HasPrefix(text, "aws_") || HasPrefix(text, "gcp_")
  {
    assert KnownProviders[0] + "_" == "azurerm_";
    assert KnownProviders[1] + "_" == "aws_";
    assert KnownProviders[2] + "_" == "gcp_";
  }

  // ---------------------------------------------------------------------
  // AddImageLabel, PositionLabelTo and their composition
  // ---------------------------------------------------------------------

  /** Decorating a node a second time changes nothing: the pass reads only
      `label`, which it never writes. */
  lemma ImageLabelledNodeIdempotent(n: Node)
    ensures ImageLabelledNode(ImageLabelledNode(n)) == ImageLabelledNode(n)
  {
    var m := ImageLabelledNode(n);
    assert Get(m.attrs, "label") == Get(n.attrs, "label") by {
      assert "label" !in {"image", "shape"};
      assert ("label" in m.attrs) == ("label" in (m.attrs - {"image", "shape"}));
      assert ("label" in n.attrs) == ("label" in (n.attrs - {"image", "shape"}));
    }
    if IsIconNode(n) {
      assert m.attrs["image" := m.attrs["image"]]["shape" := m.attrs["shape"]] == m.attrs;
    }
  }

  /** AddImageLabel is idempotent on the whole graph. */
  lemma ImageLabelledIdempotent(g: Graph)
    ensures ImageLabelled(ImageLabelled(g)) == ImageLabelled(g)
  {
    var once := ImageLabelled(g);
    var twice := ImageLabelled(once);
    forall i | 0 <= i < |g.nodes|
      ensures twice.nodes[i] == once.nodes[i]
    {
      ImageLabelledNodeIdempotent(g.nodes[i]);
    }
    assert twice.nodes == once.nodes;
  }

  /** PositionLabelTo is idempotent for every position. */
  lemma LabelPositionedIdempotent(g: Graph, position: string)
    ensures LabelPositioned(LabelPositioned(g, position), position) == LabelPositioned(g, position)
  {
    var once := LabelPositioned(g, position);
    var twice := LabelPositioned(once, position);
    if IsValidPosition(position) {
      forall i | 0 <= i < |g.nodes|
        ensures twice.nodes[i] == once.nodes[i]
      {
        var m := once.nodes[i];
        assert m.attrs["labelloc" := Quote(position)] == m.attrs;
      }
      assert twice.nodes == once.nodes;
    }
  }

  /** One node after the printing preparation: its icon, then its label
      position. */
  function PreparedNode(n: Node): Node {
    PositionedNode(ImageLabelledNode(n), LabelLocation)
  }

  /** The label of a node survives the printing preparation. */
  lemma PreparedNodeKeepsLabel(n: Node)
    ensures Get(PreparedNode(n).attrs, "label") == Get(n.attrs, "label")
    ensures Get(ImageLabelledNode(n).attrs, "label") == Get(n.attrs, "label")
  {
    var m := ImageLabelledNode(n);
    var p := PreparedNode(n);
    assert "label" !in {"image", "shape"} && "label" !in {"labelloc"};
    assert ("label" in m.attrs) == ("label" in (m.attrs - {"image", "shape"}));
    assert ("label" in n.attrs) == ("label" in (n.attrs - {"image", "shape"}));
    assert ("label" in p.attrs) == ("label" in (p.attrs - {"labelloc"}));
    assert ("label" in m.attrs) == ("label" in (m.attrs - {"labelloc"}));
  }

  /** A prepared node is left as it is by a second preparation. */
  lemma PreparedNodeStable(n: Node)
    ensures PreparedNode(PreparedNode(n)) == PreparedNode(n)
  {
    var p := PreparedNode(n);
    PreparedNodeKeepsLabel(n);
    assert TrimmedLabel(p) == TrimmedLabel(n);
    var q := ImageLabelledNode(p);
    if IsIconNode(n) {
      var m := ImageLabelledNode(n);
      assert "image" != "labelloc" && "shape" != "labelloc";
      assert p.attrs["image"] == m.attrs["image"] by {
        assert "image" in (m.attrs - {"labelloc"});
      }
      assert p.attrs["shape"] == m.attrs["shape"] by {
        assert "shape" in (m.attrs - {"labelloc"});
      }
      assert q.attrs == p.attrs["image" := p.attrs["image"]]["shape" := p.attrs["shape"]];
      assert q == p;
    }
    assert p.attrs["labelloc" := Quote(LabelLocation)] == p.attrs;
  }

  /** What the printing preparation does to one node: it keeps its name and
      label and gets its label at the bottom; an icon node gets its icon and
      no shape; any other node keeps every attribute but `labelloc`; every
      other attribute is unchanged. */
  lemma PreparedNodeEffect(n: Node)
    ensures var p := PreparedNode(n);
      && p.name == n.name
      && Get(p.attrs, "label") == Get(n.attrs, "label")
      && "labelloc" in p.attrs && p.attrs["labelloc"] == "\"b\""
      && (IsIconNode(n) ==>
            && "image" in p.attrs && p.attrs["image"] == IconFile(TrimmedLabel(n))
            && "shape" in p.attrs && p.attrs["shape"] == "\"none\"")
      && (!IsIconNode(n) ==> p.attrs - {"labelloc"} == n.attrs - {"labelloc"})
      && p.attrs - {"image", "shape", "labelloc"} == n.attrs - {"image", "shape", "labelloc"}
  {
    var m := ImageLabelledNode(n);
    var p := PreparedNode(n);
    PreparedNodeKeepsLabel(n);
    assert Quote(LabelLocation) == "\"b\"";
    assert Quote("none") == "\"none\"";
    assert p.attrs - {"image", "shape", "labelloc"} == (p.attrs - {"labelloc"}) - {"image", "shape"};
    assert n.attrs - {"image", "shape", "labelloc"} == (n.attrs - {"image", "shape"}) - {"labelloc"};
    assert m.attrs - {"image", "shape", "labelloc"} == (m.attrs - {"image", "shape"}) - {"labelloc"};
    assert m.attrs - {"image", "shape", "labelloc"} == (m.attrs - {"labelloc"}) - {"image", "shape"};
    if IsIconNode(n) {
      assert "image" in (m.attrs - {"labelloc"}) && "shape" in (m.attrs - {"labelloc"});
    }
  }

  /** What PrepareGraphForPrinting does to a parsed graph: the image path is
      set, every node is prepared as PreparedNodeEffect says, and edges,
      subgraphs and the other graph attributes are untouched. */
  lemma PreparedEffect(g: Graph)
    ensures var r := Prepared(g);
      && r.edges == g.edges && r.subgraphs == g.subgraphs
      && "imagepath" in r.attrs && r.attrs["imagepath"] == "\"internal/icons/azurerm\""
      && r.attrs - {"imagepath"} == g.attrs - {"imagepath"}
      && |r.nodes| == |g.nodes|
      && forall i :: 0 <= i < |g.nodes| ==> r.nodes[i] == PreparedNode(g.nodes[i])
  {
    var w := WithImagePath(g, GlobalImagePath);
    assert Quote(GlobalImagePath) == "\"internal/icons/azurerm\"";
    assert forall i :: 0 <= i < |g.nodes| ==> w.nodes[i] == g.nodes[i];
  }

  /** Preparing an already prepared graph changes nothing. */
  lemma PreparedIdempotent(g: Graph)
    ensures Prepared(Prepared(g)) == Prepared(g)
  {
    var once := Prepared(g);
    var twice := Prepared(once);
    var w := WithImagePath(g, GlobalImagePath);
    var w2 := WithImagePath(once, GlobalImagePath);
    assert w2.attrs == once.attrs;
    forall i | 0 <= i < |g.nodes|
      ensures twice.nodes[i] == once.nodes[i]
    {
      assert w.nodes[i] == g.nodes[i];
      assert once.nodes[i] == PreparedNode(g.nodes[i]);
      assert w2.nodes[i] == once.nodes[i];
      assert twice.nodes[i] == PreparedNode(once.nodes[i]);
      PreparedNodeStable(g.nodes[i]);
    }
    assert twice.nodes == once.nodes;
  }

  // ---------------------------------------------------------------------
  // ConvertNodesToSubgraphs: edges
  // ---------------------------------------------------------------------

  /** Some grouping node among `ns` is named `x`. */
  predicate IsGroupingName(x: string, ns: seq<Node>, groups: seq<string>) {
    exists k :: 0 <= k < |ns| && IsGroupingNode(ns[k], groups) && ns[k].name == x
  }

  /** No grouping node's own name already looks like a cluster name. */
  predicate NoClusterNamedNodes(ns: seq<Node>, groups: seq<string>) {
    forall k :: 0 <= k < |ns| && IsGroupingNode(ns[k], groups) ==> !HasPrefix(ns[k].name, "cluster_")
  }

  /** The identifiers of the nodes are pairwise distinct (as in a parsed
      graph, where a node is looked up by its name). */
  predicate UniqueNames(ns: seq<Node>) {
    forall i, j :: 0 <= i < j < |ns| ==> ns[i].name != ns[j].name
  }

  /** An edge endpoint `x` after the node loop of ConvertNodesToSubgraphs has
      run over `ns`: each grouping node, in order, redirects the endpoint
      when it currently equals that node's name. */
  function Renamed(x: string, ns: seq<Node>, groups: seq<string>): string
    decreases |ns|
  {
    if ns == [] then x
    else
      var y := Renamed(x, ns[..|ns| - 1], groups);
      var n := ns[|ns| - 1];
      if IsGroupingNode(n, groups) && y == n.name then ClusterName(n.name) else y
  }

  /** The node loop keeps every edge in place and changes only its
      endpoints, each one as Renamed says. */
  lemma {:induction false} ConvertAllEdges(g: Graph, ns: seq<Node>, groups: seq<string>)
    ensures var r := ConvertAll(g, ns, groups);
      && |r.edges| == |g.edges|
      && forall i :: 0 <= i < |g.edges| ==>
           r.edges[i] == Edge(Renamed(g.edges[i].src, ns, groups), Renamed(g.edges[i].dst, ns, groups), g.edges[i].attrs)
    decreases |ns|
  {
    if ns != [] {
      ConvertAllEdges(g, ns[..|ns| - 1], groups);
    }
  }

  /** Splitting off the last node of `ns` in IsGroupingName. */
  lemma GroupingNameSnoc(x: string, ns: seq<Node>, groups: seq<string>)
    requires ns != []
    ensures IsGroupingName(x, ns, groups) <==>
              IsGroupingName(x, ns[..|ns| - 1], groups)
              || (IsGroupingNode(ns[|ns| - 1], groups) && ns[|ns| - 1].name == x)
  {
    var init := ns[..|ns| - 1];
    if IsGroupingName(x, ns, groups) {
      var k :| 0 <= k < |ns| && IsGroupingNode(ns[k], groups) && ns[k].name == x;
      if k < |ns| - 1 {
        assert init[k] == ns[k];
      }
    }
    if IsGroupingName(x, init, groups) {
      var k :| 0 <= k < |init| && IsGroupingNode(init[k], groups) && init[k].name == x;
      assert ns[k] == init[k];
    }
  }

  /** An endpoint that names no grouping node is never redirected. */
  lemma {:induction false} RenamedOther(x: string, ns: seq<Node>, groups: seq<string>)
    requires !IsGroupingName(x, ns, groups)
    ensures Renamed(x, ns, groups) == x
    decreases |ns|
  {
    if ns != [] {
      GroupingNameSnoc(x, ns, groups);
      RenamedOther(x, ns[..|ns| - 1], groups);
    }
  }

  /** An endpoint that names a grouping node ends up as that node's cluster
      name, provided no grouping node is itself named like a cluster (else
      a later node could redirect the endpoint a second time, see
      ChainedRedirect). */
  lemma {:induction false} RenamedGroupingName(x: string, ns: seq<Node>, groups: seq<string>)
    requires NoClusterNamedNodes(ns, groups)
    requires IsGroupingName(x, ns, groups)
    ensures Renamed(x, ns, groups) == ClusterName(x)
    decreases |ns|
  {
    var init := ns[..|ns| - 1];
    var n := ns[|ns| - 1];
    GroupingNameSnoc(x, ns, groups);
    assert NoClusterNamedNodes(init, groups) by {
      forall k | 0 <= k < |init| && IsGroupingNode(init[k], groups)
        ensures !HasPrefix(init[k].name, "cluster_")
      {
        assert init[k] == ns[k];
      }
    }
    if IsGroupingName(x, init, groups) {
      RenamedGroupingName(x, init, groups);
      assert !(IsGroupingNode(n, groups) && ClusterName(x) == n.name) by {
        if IsGroupingNode(n, groups) {
          assert !HasPrefix(n.name, "cluster_");
          assert HasPrefix(ClusterName(x), "cluster_");
        }
      }
    } else {
      RenamedOther(x, init, groups);
    }
  }

  /** Without the proviso of RenamedGroupingName an endpoint can be
      redirected twice: with grouping nodes `x` and `cluster_x`, in that
      order, an edge from `x` ends up leaving `cluster_cluster_x`. */
  lemma ChainedRedirect()
    ensures var a := Node("x", map["label" := "t.a"]);
      var b := Node("cluster_x", map["label" := "t.b"]);
      Renamed("x", [a, b], ["t"]) == "cluster_cluster_x"
  {
    var a := Node("x", map["label" := "t.a"]);
    var b := Node("cluster_x", map["label" := "t.b"]);
    TrimUnquoted("t.a");
    TrimUnquoted("t.b");
    assert FirstField("t.a") == "t" && FirstField("t.b") == "t";
    assert IsGroupingNode(a, ["t"]) && IsGroupingNode(b, ["t"]);
    assert [a, b][..1] == [a];
    assert [a][..0] == [];
    assert Renamed("x", [a], ["t"]) == "cluster_x";
  }

  /** ConvertNodesToSubgraphs on the edges: the number of edges and their
      attributes are preserved, an endpoint naming a grouping node is
      redirected to that node's cluster, and every other endpoint is left
      alone. */
  lemma ConvertedEdges(g: Graph, c: Config)
    requires NoClusterNamedNodes(g.nodes, c.groupingElements)
    ensures var r := Converted(g, Some(c));
      && |r.edges| == |g.edges|
      && forall i :: 0 <= i < |g.edges| ==>
           && r.edges[i].attrs == g.edges[i].attrs
           && r.edges[i].src == (if IsGroupingName(g.edges[i].src, g.nodes, c.groupingElements)
                                 then ClusterName(g.edges[i].src) else g.edges[i].src)
           && r.edges[i].dst == (if IsGroupingName(g.edges[i].dst, g.nodes, c.groupingElements)
                                 then ClusterName(g.edges[i].dst) else g.edges[i].dst)
  {
    var groups := c.groupingElements;
    ConvertAllEdges(g, g.nodes, groups);
    forall x: string
      ensures Renamed(x, g.nodes, groups) == if IsGroupingName(x, g.nodes, groups) then ClusterName(x) else x
    {
      if IsGroupingName(x, g.nodes, groups) {
        RenamedGroupingName(x, g.nodes, groups);
      } else {
        RenamedOther(x, g.nodes, groups);
      }
    }
  }

  // ---------------------------------------------------------------------
  // ConvertNodesToSubgraphs: subgraphs
  // ---------------------------------------------------------------------

  /** The cluster names of the grouping nodes among `ns`: a name is in it
      exactly when it is `cluster_` followed by some grouping node's name. */
  function ClusterNames(ns: seq<Node>, groups: seq<string>): (r: set<string>)
    ensures forall key :: key in r <==>
              HasPrefix(key, "cluster_") && IsGroupingName(key[|"cluster_"|..], ns, groups)
    decreases |ns|
  {
    if ns == [] then {}
    else
      var init := ns[..|ns| - 1];
      var n := ns[|ns| - 1];
      var r := ClusterNames(init, groups) + (if IsGroupingNode(n, groups) then {ClusterName(n.name)} else {});
      assert forall key :: key in r <==>
               HasPrefix(key, "cluster_") && IsGroupingName(key[|"cluster_"|..], ns, groups) by {
        forall key: string
          ensures key in r <==> HasPrefix(key, "cluster_") && IsGroupingName(key[|"cluster_"|..], ns, groups)
        {
          if HasPrefix(key, "cluster_") {
            GroupingNameSnoc(key[|"cluster_"|..], ns, groups);
            assert key == ClusterName(key[|"cluster_"|..]);
          }
        }
      }
      r
  }

  /** The node loop adds exactly one subgraph name per grouping node and
      leaves every subgraph that is no grouping node's cluster as it was. */
  lemma {:induction false} ConvertAllSubgraphs(g: Graph, ns: seq<Node>, groups: seq<string>)
    ensures var r := ConvertAll(g, ns, groups);
      && r.subgraphs.Keys == g.subgraphs.Keys + ClusterNames(ns, groups)
      && forall key :: key in g.subgraphs && key !in ClusterNames(ns, groups) ==> r.subgraphs[key] == g.subgraphs[key]
    decreases |ns|
  {
    if ns != [] {
      var init := ns[..|ns| - 1];
      var n := ns[|ns| - 1];
      ConvertAllSubgraphs(g, init, groups);
    }
  }

  /** Distinct node names give distinct cluster names. */
  lemma ClusterNameInjective(a: string, b: string)
    requires ClusterName(a) == ClusterName(b)
    ensures a == b
  {
    assert a == ClusterName(a)[|"cluster_"|..];
  }

  /** Each grouping node's cluster carries the node's trimmed label, quoted,
      and the `filled` / `lightgray` style, whatever the other nodes are. */
  lemma {:induction false} ConvertAllClusterAttrs(g: Graph, ns: seq<Node>, groups: seq<string>, k: nat)
    requires UniqueNames(ns)
    requires k < |ns| && IsGroupingNode(ns[k], groups)
    ensures var r := ConvertAll(g, ns, groups);
      var key := ClusterName(ns[k].name);
      && key in r.subgraphs
      && "label" in r.subgraphs[key] && r.subgraphs[key]["label"] == Quote(TrimmedLabel(ns[k]))
      && "style" in r.subgraphs[key] && r.subgraphs[key]["style"] == "filled"
      && "fillcolor" in r.subgraphs[key] && r.subgraphs[key]["fillcolor"] == "lightgray"
    decreases |ns|
  {
    var init := ns[..|ns| - 1];
    var n := ns[|ns| - 1];
    if k < |ns| - 1 {
      assert init[k] == ns[k];
      assert UniqueNames(init) by {
        forall i, j | 0 <= i < j < |init|
          ensures init[i].name != init[j].name
        {
          assert init[i] == ns[i] && init[j] == ns[j];
        }
      }
      ConvertAllClusterAttrs(g, init, groups, k);
      assert n.name != ns[k].name;
      assert ClusterName(n.name) != ClusterName(ns[k].name) by {
        if ClusterName(n.name) == ClusterName(ns[k].name) {
          ClusterNameInjective(n.name, ns[k].name);
        }
      }
    }
  }

  /** Reading a cluster's label back with the quotes trimmed gives the
      grouping node's trimmed label. */
  lemma ClusterLabelRoundTrip(g: Graph, c: Config, k: nat)
    requires UniqueNames(g.nodes)
    requires k < |g.nodes| && IsGroupingNode(g.nodes[k], c.groupingElements)
    ensures var r := Converted(g, Some(c));
      var key := ClusterName(g.nodes[k].name);
      key in r.subgraphs && "label" in r.subgraphs[key]
      && TrimQuotes(r.subgraphs[key]["label"]) == TrimmedLabel(g.nodes[k])
  {
    ConvertAllClusterAttrs(g, g.nodes, c.groupingElements, k);
    QuoteRoundTrip(TrimmedLabel(g.nodes[k]));
  }

  /** ConvertNodesToSubgraphs on the subgraphs: one `cluster_<name>`
      subgraph per grouping node is added (or kept), labelled with the
      node's quoted trimmed label. */
  lemma ConvertedSubgraphs(g: Graph, c: Config)
    requires UniqueNames(g.nodes)
    ensures var r := Converted(g, Some(c));
      && r.subgraphs.Keys == g.subgraphs.Keys + ClusterNames(g.nodes, c.groupingElements)
      && (forall key :: key in g.subgraphs && key !in ClusterNames(g.nodes, c.groupingElements) ==>
            r.subgraphs[key] == g.subgraphs[key])
      && forall k :: 0 <= k < |g.nodes| && IsGroupingNode(g.nodes[k], c.groupingElements) ==>
           && ClusterName(g.nodes[k].name) in r.subgraphs
           && "label" in r.subgraphs[ClusterName(g.nodes[k].name)]
           && r.subgraphs[ClusterName(g.nodes[k].name)]["label"] == Quote(TrimmedLabel(g.nodes[k]))
  {
    ConvertAllSubgraphs(g, g.nodes, c.groupingElements);
    forall k | 0 <= k < |g.nodes| && IsGroupingNode(g.nodes[k], c.groupingElements)
      ensures var r := Converted(g, Some(c));
        && ClusterName(g.nodes[k].name) in r.subgraphs
        && "label" in r.subgraphs[ClusterName(g.nodes[k].name)]
        && r.subgraphs[ClusterName(g.nodes[k].name)]["label"] == Quote(TrimmedLabel(g.nodes[k]))
    {
      ConvertAllClusterAttrs(g, g.nodes, c.groupingElements, k);
    }
  }

  /** A graph without grouping nodes is left unchanged by
      ConvertNodesToSubgraphs. */
  lemma {:induction false} ConvertAllNoGrouping(g: Graph, ns: seq<Node>, groups: seq<string>)
    requires forall k :: 0 <= k < |ns| ==> !IsGroupingNode(ns[k], groups)
    ensures ConvertAll(g, ns, groups) == g
    decreases |ns|
  {
    if ns != [] {
      var init := ns[..|ns| - 1];
      assert forall k :: 0 <= k < |init| ==> init[k] == ns[k];
      ConvertAllNoGrouping(g, init, groups);
    }
  }

  // ---------------------------------------------------------------------
  // ConvertNodesToSubgraphs: running it twice
  // ---------------------------------------------------------------------

  /** A graph the node loop over `ns` leaves alone: every grouping node
      already has its cluster with its final attributes, and no edge
      endpoint names a grouping node any more. */
  predicate AlreadyConverted(h: Graph, ns: seq<Node>, groups: seq<string>) {
    && (forall k :: 0 <= k < |ns| && IsGroupingNode(ns[k], groups) ==>
          && ClusterName(ns[k].name) in h.subgraphs
          && ClusterAttrs(h.subgraphs[ClusterName(ns[k].name)], TrimmedLabel(ns[k])) == h.subgraphs[ClusterName(ns[k].name)])
    && (forall i :: 0 <= i < |h.edges| ==>
          !IsGroupingName(h.edges[i].src, ns, groups) && !IsGroupingName(h.edges[i].dst, ns, groups))
  }

  /** The node loop changes nothing on a graph it has already converted. */
  lemma {:induction false} ConvertAllFixed(h: Graph, ns: seq<Node>, groups: seq<string>)
    requires AlreadyConverted(h, ns, groups)
    ensures ConvertAll(h, ns, groups) == h
    decreases |ns|
  {
    if ns != [] {
      var init := ns[..|ns| - 1];
      var n := ns[|ns| - 1];
      assert AlreadyConverted(h, init, groups) by {
        forall k | 0 <= k < |init|
          ensures init[k] == ns[k]
        {
        }
        forall x | IsGroupingName(x, init, groups)
          ensures IsGroupingName(x, ns, groups)
        {
          GroupingNameSnoc(x, ns, groups);
        }
      }
      ConvertAllFixed(h, init, groups);
      if IsGroupingNode(n, groups) {
        var key := ClusterName(n.name);
        assert h.subgraphs[key := ClusterAttrs(h.subgraphs[key], TrimmedLabel(n))] == h.subgraphs;
        forall i | 0 <= i < |h.edges|
          ensures RenamedEdge(h.edges[i], n.name, key) == h.edges[i]
        {
          assert IsGroupingName(n.name, ns, groups) by {
            assert IsGroupingNode(ns[|ns| - 1], groups) && ns[|ns| - 1].name == n.name;
          }
        }
        assert RenamedEdges(h.edges, n.name, key) == h.edges;
      }
    }
  }

  /** A cluster attribute list is a fixed point of ClusterAttrs. */
  lemma ClusterAttrsFixed(m: Attrs, text: string)
    requires "label" in m && m["label"] == Quote(text)
    requires "style" in m && m["style"] == "filled"
    requires "fillcolor" in m && m["fillcolor"] == "lightgray"
    ensures ClusterAttrs(m, text) == m
  {
  }

  /** A second ConvertNodesToSubgraphs changes no edge, no subgraph name and
      no modelled cluster attribute, when node names are unique and no
      grouping node is already named like a cluster. (The `statement`
      attribute, which the model leaves out, grows on every run.) */
  lemma ConvertedIdempotent(g: Graph, c: Config)
    requires UniqueNames(g.nodes)
    requires NoClusterNamedNodes(g.nodes, c.groupingElements)
    ensures Converted(Converted(g, Some(c)), Some(c)) == Converted(g, Some(c))
  {
    var groups := c.groupingElements;
    var once := Converted(g, Some(c));
    ConvertedEdges(g, c);
    forall k | 0 <= k < |g.nodes| && IsGroupingNode(g.nodes[k], groups)
      ensures ClusterName(g.nodes[k].name) in once.subgraphs
      ensures ClusterAttrs(once.subgraphs[ClusterName(g.nodes[k].name)], TrimmedLabel(g.nodes[k]))
              == once.subgraphs[ClusterName(g.nodes[k].name)]
    {
      ConvertAllClusterAttrs(g, g.nodes, groups, k);
      ClusterAttrsFixed(once.subgraphs[ClusterName(g.nodes[k].name)], TrimmedLabel(g.nodes[k]));
    }
    assert forall x :: HasPrefix(x, "cluster_") ==> !IsGroupingName(x, g.nodes, groups);
    forall i | 0 <= i < |once.edges|
      ensures !IsGroupingName(once.edges[i].src, g.nodes, groups)
      ensures !IsGroupingName(once.edges[i].dst, g.nodes, groups)
    {
      assert HasPrefix(ClusterName(g.edges[i].src), "cluster_");
      assert HasPrefix(ClusterName(g.edges[i].dst), "cluster_");
    }
    assert AlreadyConverted(once, g.nodes, groups);
    ConvertAllFixed(once, g.nodes, groups);
  }
}
