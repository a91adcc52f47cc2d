/** What `updateVisualization` (code/ecoSystem/webservice/js/app.js) hands to
    the drawing code: it recomputes the counters from scratch, builds the
    graph, keeps the nodes whose degree reaches the `minLinks` threshold and
    the links that still have their endpoints. The drawing itself is not
    modelled. */
module View {
  import opened Common
  import opened Letters
  import opened Metrics
  import opened LinkGraph
  import opened LinkGraphFacts

  /** `nodes.filter(node => (maps.degree[node.id] || 0) >= minLinks)`. */
  function KeepNodes(nodes: seq<string>, degree: map<string, int>, minLinks: int): (r: seq<string>)
    ensures |r| <= |nodes|
    ensures forall x :: x in r <==> x in nodes && Get(degree, x) >= minLinks
  {
    if nodes == [] then []
    else
      var rest := KeepNodes(nodes[..|nodes| - 1], degree, minLinks);
      var x := nodes[|nodes| - 1];
      assert forall y :: y in nodes <==> y in nodes[..|nodes| - 1] || y == x by {
        assert nodes == nodes[..|nodes| - 1] + [x];
      }
      if Get(degree, x) >= minLinks then rest + [x] else rest
  }

  /** A link survives when its source survives and it is a loop or its
      target survives. */
  predicate Survives(l: Link, remaining: seq<string>) {
    l.source in remaining && (l.isLoop || l.target in remaining)
  }

  /** `links.filter(...)` against the set of remaining node ids. */
  function ValidLinks(links: seq<Link>, remaining: seq<string>): (r: seq<Link>)
    ensures |r| <= |links|
    ensures forall l :: l in r <==> l in links && Survives(l, remaining)
  {
    if links == [] then []
    else
      var rest := ValidLinks(links[..|links| - 1], remaining);
      var l := links[|links| - 1];
      assert forall m :: m in links <==> m in links[..|links| - 1] || m == l by {
        assert links == links[..|links| - 1] + [l];
      }
      if Survives(l, remaining) then rest + [l] else rest
  }

  /** The node filter keeps the original order: filtering a concatenation
      filters each part in place. */
  lemma {:induction false} KeepNodesAppend(a: seq<string>, b: seq<string>, degree: map<string, int>, minLinks: int)
    ensures KeepNodes(a + b, degree, minLinks) == KeepNodes(a, degree, minLinks) + KeepNodes(b, degree, minLinks)
  {
    if b == [] {
      assert a + b == a;
    } else {
      var init, x := b[..|b| - 1], b[|b| - 1];
      KeepNodesAppend(a, init, degree, minLinks);
      assert (a + b)[..|a + b| - 1] == a + init && (a + b)[|a + b| - 1] == x;
      var tail := if Get(degree, x) >= minLinks then [x] else [];
      assert KeepNodes(a + b, degree, minLinks) == KeepNodes(a + init, degree, minLinks) + tail;
      assert KeepNodes(b, degree, minLinks) == KeepNodes(init, degree, minLinks) + tail;
    }
  }

  /** The link filter keeps the original order in the same way. */
  lemma {:induction false} ValidLinksAppend(a: seq<Link>, b: seq<Link>, remaining: seq<string>)
    ensures ValidLinks(a + b, remaining) == ValidLinks(a, remaining) + ValidLinks(b, remaining)
  {
    if b == [] {
      assert a + b == a;
    } else {
      var init, l := b[..|b| - 1], b[|b| - 1];
      ValidLinksAppend(a, init, remaining);
      assert (a + b)[..|a + b| - 1] == a + init && (a + b)[|a + b| - 1] == l;
      var tail := if Survives(l, remaining) then [l] else [];
      assert ValidLinks(a + b, remaining) == ValidLinks(a + init, remaining) + tail;
      assert ValidLinks(b, remaining) == ValidLinks(init, remaining) + tail;
    }
  }

  /** Filtering distinct nodes gives distinct nodes. */
  lemma {:induction false} KeepNodesDistinct(nodes: seq<string>, degree: map<string, int>, minLinks: int)
    requires NoDup(nodes)
    ensures NoDup(KeepNodes(nodes, degree, minLinks))
  {
    if nodes != [] {
      var init := nodes[..|nodes| - 1];
      assert NoDup(init);
      KeepNodesDistinct(init, degree, minLinks);
      assert nodes[|nodes| - 1] !in init;
    }
  }

  /** With every degree non-negative, the threshold 0 keeps every node. */
  lemma {:induction false} KeepNodesZero(nodes: seq<string>, degree: map<string, int>, minLinks: int)
    requires minLinks <= 0
    requires forall x :: Get(degree, x) >= 0
    ensures KeepNodes(nodes, degree, minLinks) == nodes
  {
    if nodes != [] {
      KeepNodesZero(nodes[..|nodes| - 1], degree, minLinks);
    }
  }

  /** When every link's endpoints remain, no link is dropped. */
  lemma {:induction false} ValidLinksAll(links: seq<Link>, remaining: seq<string>)
    requires forall i :: 0 <= i < |links| ==> links[i].source in remaining && links[i].target in remaining
    ensures ValidLinks(links, remaining) == links
  {
    if links != [] {
      var init, last := links[..|links| - 1], links[|links| - 1];
      assert forall i :: 0 <= i < |init| ==> init[i] == links[i];
      ValidLinksAll(init, remaining);
      assert Survives(last, remaining);
      assert ValidLinks(links, remaining) == init + [last];
      assert init + [last] == links;
    }
  }

  /** The outcome of `updateVisualization`: the "no data" message, or the
      nodes and links given to the simulation. */
  datatype Picture = NoData | Shown(nodes: seq<string>, links: seq<Link>)

  /** The picture for the letters and the threshold, from the specification
      functions. */
  function Visible(data: seq<Letter>, minLinks: int): Picture {
    var g := Build(Start, data);
    var nodes := KeepNodes(g.nodes, Accumulate(Empty, data).degree, minLinks);
    if |nodes| == 0 then NoData else Shown(nodes, ValidLinks(g.links, nodes))
  }

  /** The shown nodes are distinct names of the letters whose degree reaches
      the threshold, and every shown link starts at a shown node and, unless
      it is a loop, ends at one. */
  lemma VisibleShape(data: seq<Letter>, minLinks: int)
    ensures Visible(data, minLinks).Shown? ==>
      var p := Visible(data, minLinks);
      NoDup(p.nodes) &&
      (forall x :: x in p.nodes <==> Mentioned(data, x) && Get(Accumulate(Empty, data).degree, x) >= minLinks) &&
      (forall l :: l in p.links ==> l in Build(Start, data).links && Survives(l, p.nodes))
    ensures Visible(data, minLinks).NoData? <==>
      forall x :: Mentioned(data, x) ==> Get(Accumulate(Empty, data).degree, x) < minLinks
  {
    var g := Build(Start, data);
    ProcessDataNodes(data);
    KeepNodesDistinct(g.nodes, Accumulate(Empty, data).degree, minLinks);
    var nodes := KeepNodes(g.nodes, Accumulate(Empty, data).degree, minLinks);
    if |nodes| > 0 {
      assert nodes[0] in nodes;
    }
  }

  /** With a threshold of at most 0 nothing is filtered: the picture is the
      whole graph, or "no data" exactly when there are no letters' names. */
  lemma VisibleUnfiltered(data: seq<Letter>, minLinks: int)
    requires minLinks <= 0
    ensures Build(Start, data).nodes != [] ==>
      Visible(data, minLinks) == Shown(Build(Start, data).nodes, Build(Start, data).links)
    ensures Build(Start, data).nodes == [] ==> Visible(data, minLinks) == NoData
  {
    var g := Build(Start, data);
    ProcessDataNodes(data);
    assert Closed(g);
    ValidLinksAll(g.links, g.nodes);
    DegreesNonNegative(data);
    KeepNodesZero(g.nodes, Accumulate(Empty, data).degree, minLinks);
  }

  /** `updateVisualization`: the counters are reset and recomputed, so their
      new state depends on the letters alone, and the picture is `Visible`. */
  method UpdateVisualization(maps: MetricMaps, dataToShow: seq<Letter>, minLinks: int) returns (p: Picture)
    modifies maps
    ensures maps.State() == Accumulate(Empty, dataToShow)
    ensures p == Visible(dataToShow, minLinks)
  {
    maps.Reset();
    maps.CalculateMetrics(dataToShow);
    var nodes, links := ProcessData(dataToShow);
    nodes := KeepNodes(nodes, maps.degree, minLinks);
    if |nodes| == 0 {
      return NoData;
    }
    var validLinks := ValidLinks(links, nodes);
    return Shown(nodes, validLinks);
  }
}
