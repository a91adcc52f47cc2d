/** The correspondence graph: the node set and the link list that
    `processData` (code/ecoSystem/webservice/js/app.js) derives from the
    letters.

    `Build` is the pure specification, a fold over the letters that mirrors
    the loops of the source; `ProcessData` is the loop program, proved equal
    to it. The lemmas state what the fold guarantees: the shape of every
    link, at most one non-loop link per unordered pair, the node set, and
    (for names without the key separator) that each link's half-counts are
    the directional letter counts kept in `linkCounts`. */
module LinkGraph {
  import opened Common
  import opened Letters

  /** The separator of the `linkCounts` keys `${a}→${b}`. */
  const Arrow: char := '\U{2192}'

  function Key(a: string, b: string): string {
    a + [Arrow] + b
  }

  predicate NoArrow(name: string) {
    Arrow !in name
  }

  /** An entry of `linkCounts`: a running count and the letter numbers seen. */
  datatype Tally = Tally(count: int, numbers: seq<int>)

  /** A link object as `processData` builds it. Loop links in the source have
      no `bidirectional` property; here they carry `false`, which is how the
      missing property reads. */
  datatype Link = Link(source: string, target: string, isLoop: bool, count: int, numbers: seq<int>,
                       countAtoB: int, countBtoA: int, bidirectional: bool)

  /** The state of `processData`: `nodeSet` (in insertion order), `links` and
      `linkCounts`. */
  datatype Graph = Graph(nodes: seq<string>, links: seq<Link>, linkCounts: map<string, Tally>)

  const Start: Graph := Graph([], [], map[])

  function TallyOf(lc: map<string, Tally>, k: string): Tally {
    if k in lc then lc[k] else Tally(0, [])
  }

  /** `if (!linkCounts[k]) linkCounts[k] = { count: 0, numbers: [] }`. */
  function Ensure(lc: map<string, Tally>, k: string): map<string, Tally> {
    if k in lc then lc else lc[k := Tally(0, [])]
  }

  /** `nodeSet.add(x)` on an insertion-ordered set. */
  function AddNode(nodes: seq<string>, x: string): seq<string> {
    if x in nodes then nodes else nodes + [x]
  }

  function AddNodes(nodes: seq<string>, xs: seq<string>): seq<string> {
    if xs == [] then nodes else AddNode(AddNodes(nodes, xs[..|xs| - 1]), xs[|xs| - 1])
  }

  /** The link connects `a` and `b`, in either orientation. */
  predicate Joins(l: Link, a: string, b: string) {
    (l.source == a && l.target == b) || (l.source == b && l.target == a)
  }

  predicate Unlinked(links: seq<Link>, a: string, b: string) {
    forall i :: 0 <= i < |links| ==> !Joins(links[i], a, b)
  }

  /** `links.find(...)`: the index of the first link joining `a` and `b`. */
  function FindLink(links: seq<Link>, a: string, b: string): (r: Option<nat>)
    ensures r.Some? ==>
              r.value < |links| && Joins(links[r.value], a, b) && Unlinked(links[..r.value], a, b)
    ensures r.None? <==> Unlinked(links, a, b)
  {
    FindFrom(links, a, b, 0)
  }

  function FindFrom(links: seq<Link>, a: string, b: string, from: nat): (r: Option<nat>)
    requires from <= |links|
    requires Unlinked(links[..from], a, b)
    ensures r.Some? ==>
              from <= r.value < |links| && Joins(links[r.value], a, b) && Unlinked(links[..r.value], a, b)
    ensures r.None? <==> Unlinked(links, a, b)
    decreases |links| - from
  {
    if from == |links| then
      assert links[..from] == links;
      None
    else if Joins(links[from], a, b) then Some(from)
    else
      assert forall i :: 0 <= i < from + 1 ==> links[..from + 1][i] == links[i];
      FindFrom(links, a, b, from + 1)
  }

  // ---- the loop branch ----

  /** One iteration of the loop branch for sender `s` of letter number `n`:
      count the letter under `s→s` and push a fresh loop link carrying the
      running count. */
  function LoopLink(g: Graph, n: int, s: string): Graph {
    var key := Key(s, s);
    var t := TallyOf(g.linkCounts, key);
    var t' := Tally(t.count + 1, t.numbers + [n]);
    Graph(g.nodes, g.links + [Link(s, s, true, t'.count, Dedup(t'.numbers), t'.count, 0, false)],
          g.linkCounts[key := t'])
  }

  function LoopLinks(g: Graph, n: int, ss: seq<string>): Graph {
    if ss == [] then g else LoopLink(LoopLinks(g, n, ss[..|ss| - 1]), n, ss[|ss| - 1])
  }

  // ---- the pair branch ----

  /** One iteration of the pair branch for the ordered pair (`s`, `r`). */
  function PairLink(g: Graph, n: int, s: string, r: string): Graph {
    var key, reverseKey := Key(s, r), Key(r, s);
    var lc := Ensure(Ensure(g.linkCounts, key), reverseKey);
    var t := lc[key];
    var lc' := lc[key := Tally(t.count + 1, t.numbers + [n])];
    var isBidirectional := TallyOf(lc', reverseKey).count > 0;
    var c := TallyOf(lc', key).count;
    match FindLink(g.links, s, r)
    case Some(i) =>
      var l := g.links[i];
      var l1 := if l.source == s then l.(countAtoB := c) else l.(countBtoA := c);
      var l2 := l1.(count := l1.countAtoB + l1.countBtoA, bidirectional := isBidirectional,
                    numbers := Dedup(l.numbers + [n]));
      Graph(g.nodes, g.links[i := l2], lc')
    case None =>
      Graph(g.nodes, g.links + [Link(s, r, false, 1, [n], 1, 0, false)], lc')
  }

  function PairsFrom(g: Graph, n: int, s: string, rs: seq<string>): Graph {
    if rs == [] then g else PairLink(PairsFrom(g, n, s, rs[..|rs| - 1]), n, s, rs[|rs| - 1])
  }

  function Pairs(g: Graph, n: int, ss: seq<string>, rs: seq<string>): Graph {
    if ss == [] then g else PairsFrom(Pairs(g, n, ss[..|ss| - 1], rs), n, ss[|ss| - 1], rs)
  }

  // ---- one letter, all letters ----

  /** The condition of the loop branch: no receiver, or a single receiver
      who is also a sender. */
  predicate IsLoopLetter(senders: seq<string>, receivers: seq<string>) {
    |receivers| == 0 || (|receivers| == 1 && receivers[0] in senders)
  }

  function LetterStep(g: Graph, d: Letter): Graph {
    var S, R := Senders(d), Receivers(d);
    var g1 := g.(nodes := AddNodes(g.nodes, S));
    if IsLoopLetter(S, R) then LoopLinks(g1, d.number, S)
    else Pairs(g1.(nodes := AddNodes(g1.nodes, R)), d.number, S, R)
  }

  function Build(g: Graph, data: seq<Letter>): Graph {
    if data == [] then g else LetterStep(Build(g, data[..|data| - 1]), data[|data| - 1])
  }

  // ---- the loop program ----

  /** `processData`: the node list and the link list, built by the loops of
      the source over the letters, their senders and their receivers. */
  method ProcessData(data: seq<Letter>) returns (nodes: seq<string>, links: seq<Link>)
    ensures nodes == Build(Start, data).nodes
    ensures links == Build(Start, data).links
  {
    nodes, links := [], [];
    var linkCounts: map<string, Tally> := map[];
    for k := 0 to |data|
      invariant Graph(nodes, links, linkCounts) == Build(Start, data[..k])
    {
      nodes, links, linkCounts := ProcessLetter(nodes, links, linkCounts, data[k]);
      assert data[..k + 1][..k] == data[..k];
    }
    assert data[..|data|] == data;
  }

  /** The body of `data.forEach` for one letter. */
  method ProcessLetter(nodes: seq<string>, links: seq<Link>, linkCounts: map<string, Tally>, d: Letter)
    returns (nodes': seq<string>, links': seq<Link>, linkCounts': map<string, Tally>)
    ensures Graph(nodes', links', linkCounts') == LetterStep(Graph(nodes, links, linkCounts), d)
  {
    var senders, receivers := Senders(d), Receivers(d);
    nodes' := AddEach(nodes, senders);
    if |receivers| == 0 || (|receivers| == 1 && receivers[0] in senders) {
      links', linkCounts' := PushLoops(nodes', links, linkCounts, d.number, senders);
    } else {
      nodes' := AddEach(nodes', receivers);
      links', linkCounts' := LinkAllPairs(nodes', links, linkCounts, d.number, senders, receivers);
    }
  }

  /** The loop branch: one loop link per sender. */
  method PushLoops(nodes: seq<string>, links: seq<Link>, linkCounts: map<string, Tally>, n: int,
                   senders: seq<string>)
    returns (links': seq<Link>, linkCounts': map<string, Tally>)
    ensures Graph(nodes, links', linkCounts') == LoopLinks(Graph(nodes, links, linkCounts), n, senders)
  {
    links', linkCounts' := links, linkCounts;
    for i := 0 to |senders|
      invariant Graph(nodes, links', linkCounts') == LoopLinks(Graph(nodes, links, linkCounts), n, senders[..i])
    {
      links', linkCounts' := PushLoop(nodes, links', linkCounts', n, senders[i]);
      assert senders[..i + 1][..i] == senders[..i];
    }
    assert senders[..|senders|] == senders;
  }

  /** The body of the loop branch's `senders.forEach` for one sender. */
  method PushLoop(nodes: seq<string>, links: seq<Link>, linkCounts: map<string, Tally>, n: int, sender: string)
    returns (links': seq<Link>, linkCounts': map<string, Tally>)
    ensures Graph(nodes, links', linkCounts') == LoopLink(Graph(nodes, links, linkCounts), n, sender)
  {
    var key := Key(sender, sender);
    linkCounts' := linkCounts;
    if key !in linkCounts' {
      linkCounts' := linkCounts'[key := Tally(0, [])];
    }
    assert linkCounts'[key] == TallyOf(linkCounts, key);
    var t := Tally(linkCounts'[key].count + 1, linkCounts'[key].numbers + [n]);
    assert linkCounts'[key := t] == linkCounts[key := t];
    linkCounts' := linkCounts'[key := t];
    links' := links + [Link(sender, sender, true, t.count, Dedup(t.numbers), t.count, 0, false)];
  }

  /** The pair branch: every sender with every receiver. */
  method LinkAllPairs(nodes: seq<string>, links: seq<Link>, linkCounts: map<string, Tally>, n: int,
                      senders: seq<string>, receivers: seq<string>)
    returns (links': seq<Link>, linkCounts': map<string, Tally>)
    ensures Graph(nodes, links', linkCounts') == Pairs(Graph(nodes, links, linkCounts), n, senders, receivers)
  {
    links', linkCounts' := links, linkCounts;
    for i := 0 to |senders|
      invariant Graph(nodes, links', linkCounts')
                == Pairs(Graph(nodes, links, linkCounts), n, senders[..i], receivers)
    {
      links', linkCounts' := LinkSender(nodes, links', linkCounts', n, senders[i], receivers);
      assert senders[..i + 1][..i] == senders[..i];
    }
    assert senders[..|senders|] == senders;
  }

  /** One sender with every receiver. */
  method LinkSender(nodes: seq<string>, links: seq<Link>, linkCounts: map<string, Tally>, n: int,
                    sender: string, receivers: seq<string>)
    returns (links': seq<Link>, linkCounts': map<string, Tally>)
    ensures Graph(nodes, links', linkCounts') == PairsFrom(Graph(nodes, links, linkCounts), n, sender, receivers)
  {
    links', linkCounts' := links, linkCounts;
    for j := 0 to |receivers|
      invariant Graph(nodes, links', linkCounts')
                == PairsFrom(Graph(nodes, links, linkCounts), n, sender, receivers[..j])
    {
      links', linkCounts' := LinkPair(nodes, links', linkCounts', n, sender, receivers[j]);
      assert receivers[..j + 1][..j] == receivers[..j];
    }
    assert receivers[..|receivers|] == receivers;
  }

  /** `names.forEach(x => nodeSet.add(x))`. */
  method AddEach(nodes: seq<string>, names: seq<string>) returns (nodes': seq<string>)
    ensures nodes' == AddNodes(nodes, names)
  {
    nodes' := nodes;
    for i := 0 to |names|
      invariant nodes' == AddNodes(nodes, names[..i])
    {
      if names[i] !in nodes' {
        nodes' := nodes' + [names[i]];
      }
      assert names[..i + 1][..i] == names[..i];
    }
    assert names[..|names|] == names;
  }

  /** The body of the inner `receivers.forEach` for the pair (`sender`,
      `receiver`). */
  method LinkPair(nodes: seq<string>, links: seq<Link>, linkCounts: map<string, Tally>, n: int,
                  sender: string, receiver: string)
    returns (links': seq<Link>, linkCounts': map<string, Tally>)
    ensures Graph(nodes, links', linkCounts') == PairLink(Graph(nodes, links, linkCounts), n, sender, receiver)
  {
    var key, reverseKey := Key(sender, receiver), Key(receiver, sender);
    linkCounts' := linkCounts;
    if key !in linkCounts' {
      linkCounts' := linkCounts'[key := Tally(0, [])];
    }
    if reverseKey !in linkCounts' {
      linkCounts' := linkCounts'[reverseKey := Tally(0, [])];
    }
    linkCounts' := linkCounts'[key := Tally(linkCounts'[key].count + 1, linkCounts'[key].numbers + [n])];
    var isBidirectional := linkCounts'[reverseKey].count > 0;
    var found := FindExisting(links, sender, receiver);
    if found.Some? {
      var existing := links[found.value];
      if existing.source == sender {
        existing := existing.(countAtoB := linkCounts'[key].count);
      } else {
        existing := existing.(countBtoA := linkCounts'[key].count);
      }
      existing := existing.(count := existing.countAtoB + existing.countBtoA);
      existing := existing.(bidirectional := isBidirectional);
      existing := existing.(numbers := Dedup(links[found.value].numbers + [n]));
      links' := links[found.value := existing];
    } else {
      links' := links + [Link(sender, receiver, false, 1, [n], 1, 0, false)];
    }
  }

  /** `links.find(...)` as a search loop. */
  method FindExisting(links: seq<Link>, a: string, b: string) returns (r: Option<nat>)
    ensures r == FindLink(links, a, b)
  {
    var i := 0;
    while i < |links|
      invariant 0 <= i <= |links|
      invariant Unlinked(links[..i], a, b)
      invariant FindLink(links, a, b) == FindFrom(links, a, b, i)
    {
      if Joins(links[i], a, b) {
        return Some(i);
      }
      assert forall k :: 0 <= k < i + 1 ==> links[..i + 1][k] == links[k];
      i := i + 1;
    }
    return None;
  }
}
