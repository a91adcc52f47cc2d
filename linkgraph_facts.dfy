/** What `processData` guarantees, proved about its specification
    `LinkGraph.Build`. */
module LinkGraphFacts {
  import opened Common
  import opened Letters
  import opened LinkGraph

  // ---- keys ----

  /** A key `a→b` determines `a` and `b` when `a` has no arrow in it. */
  lemma KeyInjective(a: string, b: string, c: string, d: string)
    requires NoArrow(a) && NoArrow(c)
    requires Key(a, b) == Key(c, d)
    ensures a == c && b == d
  {
    var k := Key(a, b);
    ArrowAt(a, b);
    ArrowAt(c, d);
    assert |a| == |c|;
    assert a == k[..|a|] == c;
    assert b == k[|a| + 1..] == d;
  }

  /** In `a→b` the first arrow sits right after `a`. */
  lemma ArrowAt(a: string, b: string)
    requires NoArrow(a)
    ensures Key(a, b)[|a|] == Arrow
    ensures forall i :: 0 <= i < |a| ==> Key(a, b)[i] != Arrow
  {
    assert forall i :: 0 <= i < |a| ==> Key(a, b)[i] == a[i];
  }

  /** Loop keys `s→s` never collide, whatever the names contain. */
  lemma LoopKeyInjective(a: string, b: string)
    requires Key(a, a) == Key(b, b)
    ensures a == b
  {
    assert |a| == |b|;
    assert a == Key(a, a)[..|a|];
  }

  lemma EnsureTally(lc: map<string, Tally>, k: string, j: string)
    ensures TallyOf(Ensure(lc, k), j) == TallyOf(lc, j)
  {
  }

  // ---- the shape of every link, and one link per unordered pair ----

  /** `count` is the sum of the halves, the letter numbers are distinct and a
      loop link joins an entity to itself. */
  predicate LinkShape(l: Link) {
    l.count == l.countAtoB + l.countBtoA && NoDup(l.numbers) && (l.isLoop ==> l.source == l.target)
  }

  /** No non-loop link joins a pair that an earlier link already joins. */
  predicate PairsUnique(links: seq<Link>) {
    forall j :: 0 <= j < |links| && !links[j].isLoop ==>
      Unlinked(links[..j], links[j].source, links[j].target)
  }

  predicate Valid(g: Graph) {
    (forall i :: 0 <= i < |g.links| ==> LinkShape(g.links[i])) && PairsUnique(g.links) && NoDup(g.nodes)
  }

  lemma LoopLinkValid(g: Graph, n: int, s: string)
    requires Valid(g)
    ensures Valid(LoopLink(g, n, s))
  {
    var g' := LoopLink(g, n, s);
    assert forall j :: 0 <= j < |g.links| ==> g'.links[..j] == g.links[..j];
  }

  lemma PairLinkValid(g: Graph, n: int, s: string, r: string)
    requires Valid(g)
    ensures Valid(PairLink(g, n, s, r))
  {
    var g' := PairLink(g, n, s, r);
    match FindLink(g.links, s, r)
    case Some(i) =>
      var l := g.links[i];
      DedupAppend(l.numbers, n);
      assert LinkShape(g'.links[i]);
      forall j | 0 <= j < |g'.links| && !g'.links[j].isLoop
        ensures Unlinked(g'.links[..j], g'.links[j].source, g'.links[j].target)
      {
        assert Unlinked(g.links[..j], g.links[j].source, g.links[j].target);
        forall k | 0 <= k < j ensures !Joins(g'.links[..j][k], g'.links[j].source, g'.links[j].target) {
          assert !Joins(g.links[..j][k], g.links[j].source, g.links[j].target);
        }
      }
    case None =>
      assert forall j :: 0 <= j < |g.links| ==> g'.links[..j] == g.links[..j];
      assert g'.links[..|g.links|] == g.links;
  }

  lemma {:induction false} LoopLinksValid(g: Graph, n: int, ss: seq<string>)
    requires Valid(g)
    ensures Valid(LoopLinks(g, n, ss))
  {
    if ss != [] {
      LoopLinksValid(g, n, ss[..|ss| - 1]);
      LoopLinkValid(LoopLinks(g, n, ss[..|ss| - 1]), n, ss[|ss| - 1]);
    }
  }

  lemma {:induction false} PairsFromValid(g: Graph, n: int, s: string, rs: seq<string>)
    requires Valid(g)
    ensures Valid(PairsFrom(g, n, s, rs))
  {
    if rs != [] {
      PairsFromValid(g, n, s, rs[..|rs| - 1]);
      PairLinkValid(PairsFrom(g, n, s, rs[..|rs| - 1]), n, s, rs[|rs| - 1]);
    }
  }

  lemma {:induction false} PairsValid(g: Graph, n: int, ss: seq<string>, rs: seq<string>)
    requires Valid(g)
    ensures Valid(Pairs(g, n, ss, rs))
  {
    if ss != [] {
      PairsValid(g, n, ss[..|ss| - 1], rs);
      PairsFromValid(Pairs(g, n, ss[..|ss| - 1], rs), n, ss[|ss| - 1], rs);
    }
  }

  /** Adding names to the node set keeps it duplicate-free and adds exactly
      those names. */
  lemma {:induction false} AddNodesFacts(nodes: seq<string>, xs: seq<string>)
    ensures NoDup(nodes) ==> NoDup(AddNodes(nodes, xs))
    ensures forall x :: x in AddNodes(nodes, xs) <==> x in nodes || x in xs
  {
    if xs != [] {
      AddNodesFacts(nodes, xs[..|xs| - 1]);
      assert xs == xs[..|xs| - 1] + [xs[|xs| - 1]];
    }
  }

  lemma LetterStepValid(g: Graph, d: Letter)
    requires Valid(g)
    ensures Valid(LetterStep(g, d))
  {
    var S, R := Senders(d), Receivers(d);
    AddNodesFacts(g.nodes, S);
    var g1 := g.(nodes := AddNodes(g.nodes, S));
    if IsLoopLetter(S, R) {
      LoopLinksValid(g1, d.number, S);
    } else {
      AddNodesFacts(g1.nodes, R);
      PairsValid(g1.(nodes := AddNodes(g1.nodes, R)), d.number, S, R);
    }
  }

  lemma {:induction false} BuildValid(data: seq<Letter>)
    ensures Valid(Build(Start, data))
  {
    if data != [] {
      BuildValid(data[..|data| - 1]);
      LetterStepValid(Build(Start, data[..|data| - 1]), data[|data| - 1]);
    }
  }

  /** After `processData` every link's `count` is the sum of its halves, its
      letter numbers are distinct, and no two non-loop links join the same
      unordered pair (a non-loop link is never preceded by any link for its
      pair). */
  lemma ProcessDataShape(data: seq<Letter>)
    ensures var links := Build(Start, data).links;
      forall i :: 0 <= i < |links| ==>
        links[i].count == links[i].countAtoB + links[i].countBtoA && NoDup(links[i].numbers)
    ensures var links := Build(Start, data).links;
      forall i, j :: 0 <= i < j < |links| && !links[j].isLoop ==>
        !Joins(links[i], links[j].source, links[j].target)
  {
    BuildValid(data);
    var links := Build(Start, data).links;
    forall i, j | 0 <= i < j < |links| && !links[j].isLoop
      ensures !Joins(links[i], links[j].source, links[j].target)
    {
      assert links[..j][i] == links[i];
    }
  }

  // ---- the node set ----

  /** Every link joins two nodes. */
  predicate Closed(g: Graph) {
    forall i :: 0 <= i < |g.links| ==> g.links[i].source in g.nodes && g.links[i].target in g.nodes
  }

  lemma {:induction false} LoopLinksNodes(g: Graph, n: int, ss: seq<string>)
    requires Closed(g) && forall x :: x in ss ==> x in g.nodes
    ensures LoopLinks(g, n, ss).nodes == g.nodes && Closed(LoopLinks(g, n, ss))
  {
    if ss != [] {
      LoopLinksNodes(g, n, ss[..|ss| - 1]);
    }
  }

  lemma {:induction false} PairsFromNodes(g: Graph, n: int, s: string, rs: seq<string>)
    requires Closed(g) && s in g.nodes && forall x :: x in rs ==> x in g.nodes
    ensures PairsFrom(g, n, s, rs).nodes == g.nodes && Closed(PairsFrom(g, n, s, rs))
  {
    if rs != [] {
      PairsFromNodes(g, n, s, rs[..|rs| - 1]);
    }
  }

  lemma {:induction false} PairsNodes(g: Graph, n: int, ss: seq<string>, rs: seq<string>)
    requires Closed(g) && forall x :: x in ss || x in rs ==> x in g.nodes
    ensures Pairs(g, n, ss, rs).nodes == g.nodes && Closed(Pairs(g, n, ss, rs))
  {
    if ss != [] {
      PairsNodes(g, n, ss[..|ss| - 1], rs);
      PairsFromNodes(Pairs(g, n, ss[..|ss| - 1], rs), n, ss[|ss| - 1], rs);
    }
  }

  /** One letter adds exactly its senders and receivers to the node set. */
  lemma LetterStepNodes(g: Graph, d: Letter)
    requires Closed(g)
    ensures Closed(LetterStep(g, d))
    ensures forall x :: x in LetterStep(g, d).nodes <==> x in g.nodes || x in Senders(d) || x in Receivers(d)
  {
    var S, R := Senders(d), Receivers(d);
    AddNodesFacts(g.nodes, S);
    var g1 := g.(nodes := AddNodes(g.nodes, S));
    if IsLoopLetter(S, R) {
      LoopLinksNodes(g1, d.number, S);
      assert forall x :: x in R ==> x in S;
    } else {
      AddNodesFacts(g1.nodes, R);
      PairsNodes(g1.(nodes := AddNodes(g1.nodes, R)), d.number, S, R);
    }
  }

  /** `x` is a sender or a receiver of some letter. */
  predicate Mentioned(data: seq<Letter>, x: string) {
    exists i :: 0 <= i < |data| && (x in Senders(data[i]) || x in Receivers(data[i]))
  }

  lemma {:induction false} BuildNodes(data: seq<Letter>)
    ensures Closed(Build(Start, data))
    ensures forall x :: x in Build(Start, data).nodes <==> Mentioned(data, x)
  {
    if data != [] {
      var init, d := data[..|data| - 1], data[|data| - 1];
      BuildNodes(init);
      LetterStepNodes(Build(Start, init), d);
      MentionedSnoc(data);
    }
  }

  /** A name is mentioned by the letters exactly when it is mentioned by all
      but the last one, or by the last one. */
  lemma MentionedSnoc(data: seq<Letter>)
    requires data != []
    ensures var init, d := data[..|data| - 1], data[|data| - 1];
      forall x :: Mentioned(data, x) <==> Mentioned(init, x) || x in Senders(d) || x in Receivers(d)
  {
    var init, d := data[..|data| - 1], data[|data| - 1];
    forall x ensures Mentioned(data, x) <==> Mentioned(init, x) || x in Senders(d) || x in Receivers(d) {
      if Mentioned(init, x) {
        var i :| 0 <= i < |init| && (x in Senders(init[i]) || x in Receivers(init[i]));
        assert data[i] == init[i];
      }
      if Mentioned(data, x) {
        var i :| 0 <= i < |data| && (x in Senders(data[i]) || x in Receivers(data[i]));
        if i < |init| {
          assert data[i] == init[i];
        }
      }
      if x in Senders(d) || x in Receivers(d) {
        assert data[|data| - 1] == d;
      }
    }
  }

  /** The nodes `processData` returns are the distinct names occurring as a
      sender or a receiver, and every link joins two of them. */
  lemma ProcessDataNodes(data: seq<Letter>)
    ensures NoDup(Build(Start, data).nodes)
    ensures forall x :: x in Build(Start, data).nodes <==> Mentioned(data, x)
    ensures Closed(Build(Start, data))
  {
    BuildValid(data);
    BuildNodes(data);
  }
}
