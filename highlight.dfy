/** The set logic of `updateHighlight` (code/ecoSystem/webservice/js/app.js):
    which drawn nodes match the search term, which are connected to a match,
    and which classes the nodes and links receive. The DOM selections are
    replaced by the lists of drawn node ids and drawn links. */
module Highlight {
  import opened Common
  import opened Text
  import opened LinkGraph

  /** The nodes whose lower-cased id contains the (lower-cased) term. */
  function MatchingSpec(nodes: seq<string>, term: string): set<string> {
    set n | n in nodes && Contains(Lower(n), term)
  }

  predicate Touches(l: Link, matching: set<string>) {
    l.source in matching || l.target in matching
  }

  /** The matching nodes and both endpoints of every link touching one. */
  function ConnectedSpec(links: seq<Link>, matching: set<string>): set<string> {
    matching
    + (set i | 0 <= i < |links| && Touches(links[i], matching) :: links[i].source)
    + (set i | 0 <= i < |links| && Touches(links[i], matching) :: links[i].target)
  }

  /** The classes after the call: `highlight` and `dimmed` on nodes,
      `dimmed` and `selected-link` on links (by index). */
  datatype Marks = Marks(highlighted: set<string>, dimmedNodes: set<string>,
                         dimmedLinks: set<nat>, selectedLinks: set<nat>)

  const Cleared: Marks := Marks({}, {}, {}, {})

  /** The classes for a non-empty term. */
  function MarksFor(nodes: seq<string>, links: seq<Link>, matching: set<string>, connected: set<string>): Marks {
    Marks(set n | n in nodes && n in connected,
          set n | n in nodes && n !in connected,
          set i: nat | i < |links| && !(links[i].source in connected && links[i].target in connected),
          set i: nat | i < |links| && Touches(links[i], matching))
  }

  /** `updateHighlight` for the search box value `value`: every class is
      cleared first; an empty term stops there. */
  method UpdateHighlight(value: string, nodes: seq<string>, links: seq<Link>) returns (m: Marks)
    ensures Lower(value) == "" ==> m == Cleared
    ensures Lower(value) != "" ==>
      var matching := MatchingSpec(nodes, Lower(value));
      m == MarksFor(nodes, links, matching, ConnectedSpec(links, matching))
  {
    var term := Lower(value);
    if term == "" {
      return Cleared;
    }
    var matchingNodes: set<string> := {};
    for i := 0 to |nodes|
      invariant matchingNodes == MatchingSpec(nodes[..i], term)
    {
      if Contains(Lower(nodes[i]), term) {
        matchingNodes := matchingNodes + {nodes[i]};
      }
      assert forall n :: n in nodes[..i + 1] <==> n in nodes[..i] || n == nodes[i] by {
        assert nodes[..i + 1] == nodes[..i] + [nodes[i]];
      }
    }
    assert nodes[..|nodes|] == nodes;
    var connectedNodes := matchingNodes;
    for i := 0 to |links|
      invariant connectedNodes == ConnectedSpec(links[..i], matchingNodes)
    {
      var l := links[i];
      var sourceMatch := l.source in matchingNodes;
      var targetMatch := l.target in matchingNodes;
      if sourceMatch || targetMatch {
        if !sourceMatch {
          connectedNodes := connectedNodes + {l.source};
        }
        if !targetMatch {
          connectedNodes := connectedNodes + {l.target};
        }
      }
      ConnectedStep(links, i, matchingNodes);
    }
    assert links[..|links|] == links;
    m := MarksFor(nodes, links, matchingNodes, connectedNodes);
  }

  lemma ConnectedStep(links: seq<Link>, i: nat, matching: set<string>)
    requires i < |links|
    ensures ConnectedSpec(links[..i + 1], matching) ==
            ConnectedSpec(links[..i], matching) +
            (if Touches(links[i], matching) then {links[i].source, links[i].target} else {})
  {
    var a, b := links[..i], links[..i + 1];
    assert forall k :: 0 <= k < i ==> b[k] == a[k];
    assert b[i] == links[i];
  }

  /** Matching nodes are connected, a link touching a match is selected and
      never dimmed, each drawn node is either highlighted or dimmed, and a
      connected node that does not match is an endpoint of a link to a
      match. */
  lemma HighlightFacts(nodes: seq<string>, links: seq<Link>, term: string)
    ensures var matching := MatchingSpec(nodes, term);
      var connected := ConnectedSpec(links, matching);
      var m := MarksFor(nodes, links, matching, connected);
      matching <= connected &&
      (forall i :: i in m.selectedLinks ==> i !in m.dimmedLinks) &&
      (forall n :: n in nodes ==> (n in m.highlighted <==> n !in m.dimmedNodes)) &&
      (forall n :: n in connected && n !in matching ==>
         exists i :: 0 <= i < |links| && Touches(links[i], matching) &&
                     (n == links[i].source || n == links[i].target))
  {
  }
}
