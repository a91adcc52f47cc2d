/** The letter numbers of `processData`'s links: a new pair link starts
    with the letter's number alone, an existing one gains the number once,
    and after all letters the link between two different entities lists
    exactly the numbers of the letters that pair them. Unlike the counters,
    this needs no assumption on the names, because links are found by
    comparing names and not through the keys. */
module LinkGraphNumbers {
  import opened Common
  import opened Letters
  import opened LinkGraph
  import opened LinkGraphFacts
  import opened LinkGraphCounts

  /** (`s`, `r`) is the unordered pair {`a`, `b`}. */
  predicate IsPair(s: string, r: string, a: string, b: string) {
    (s == a && r == b) || (s == b && r == a)
  }

  /** Some sender of `ss` and some receiver of `rs` form the pair {`a`, `b`}. */
  predicate Paired(ss: seq<string>, rs: seq<string>, a: string, b: string) {
    (a in ss && b in rs) || (b in ss && a in rs)
  }

  lemma PairedLastReceiver(s: string, rs: seq<string>, a: string, b: string)
    requires rs != []
    ensures Paired([s], rs, a, b) == (Paired([s], rs[..|rs| - 1], a, b) || IsPair(s, rs[|rs| - 1], a, b))
  {
    assert rs == rs[..|rs| - 1] + [rs[|rs| - 1]];
  }

  lemma PairedLastSender(ss: seq<string>, rs: seq<string>, a: string, b: string)
    requires ss != []
    ensures Paired(ss, rs, a, b) == (Paired(ss[..|ss| - 1], rs, a, b) || Paired([ss[|ss| - 1]], rs, a, b))
  {
    assert ss == ss[..|ss| - 1] + [ss[|ss| - 1]];
  }

  lemma AddTwice(xs: set<int>, c1: bool, c2: bool, n: int)
    ensures xs + (if c1 then {n} else {}) + (if c2 then {n} else {}) == xs + (if c1 || c2 then {n} else {})
  {
  }

  /** Letter `d` goes through the pair branch and pairs `a` with `b`. */
  predicate PairsIn(d: Letter, a: string, b: string) {
    !IsLoopLetter(Senders(d), Receivers(d)) && Paired(Senders(d), Receivers(d), a, b)
  }

  /** The numbers of the letters that pair `a` with `b`. */
  function PairNumbers(data: seq<Letter>, a: string, b: string): set<int> {
    if data == [] then {}
    else
      PairNumbers(data[..|data| - 1], a, b)
      + (if PairsIn(data[|data| - 1], a, b) then {data[|data| - 1].number} else {})
  }

  /** The links record the numbers `xs` for the pair {`a`, `b`}: no link joins
      them exactly when `xs` is empty, and every link joining them lists
      exactly `xs`. */
  predicate NumbersAre(links: seq<Link>, a: string, b: string, xs: set<int>) {
    (Unlinked(links, a, b) <==> xs == {})
    && forall i :: 0 <= i < |links| && Joins(links[i], a, b) ==>
         (set x | x in links[i].numbers) == xs
  }

  /** A pair with no link yet gets a new one at the end: one letter from
      `s` to `r`, with that letter's number, not bidirectional. */
  lemma PairLinkNew(g: Graph, n: int, s: string, r: string)
    requires FindLink(g.links, s, r) == None
    ensures PairLink(g, n, s, r).links == g.links + [Link(s, r, false, 1, [n], 1, 0, false)]
  {
  }

  /** The link found for the pair keeps its place, ends and kind, gains the
      letter's number at the end unless it is already listed, and no other
      link changes. */
  lemma PairLinkFound(g: Graph, n: int, s: string, r: string, i: nat)
    requires Valid(g) && FindLink(g.links, s, r) == Some(i)
    ensures var links, l := PairLink(g, n, s, r).links, g.links[i];
      |links| == |g.links|
      && (forall j :: 0 <= j < |links| && j != i ==> links[j] == g.links[j])
      && links[i].source == l.source && links[i].target == l.target && links[i].isLoop == l.isLoop
      && links[i].numbers == if n in l.numbers then l.numbers else l.numbers + [n]
  {
    assert LinkShape(g.links[i]);
    DedupAppend(g.links[i].numbers, n);
  }

  /** Replacing link `i` by one with the same ends keeps the record of the
      other pairs, and gives its own pair the new link's numbers. */
  lemma ReplaceNumbers(links: seq<Link>, links': seq<Link>, i: nat, a: string, b: string,
                       xs: set<int>, xs': set<int>)
    requires NumbersAre(links, a, b, xs) && i < |links| == |links'|
    requires forall j :: 0 <= j < |links| && j != i ==> links'[j] == links[j]
    requires links'[i].source == links[i].source && links'[i].target == links[i].target
    requires Joins(links[i], a, b) ==>
               (set x | x in links'[i].numbers) == xs' && xs' != {}
               && forall j :: 0 <= j < |links| && j != i ==> !Joins(links[j], a, b)
    requires !Joins(links[i], a, b) ==> xs' == xs
    ensures NumbersAre(links', a, b, xs')
  {
    if Joins(links[i], a, b) {
      assert !Unlinked(links', a, b) by { assert Joins(links'[i], a, b); }
    } else {
      assert Unlinked(links', a, b) == Unlinked(links, a, b) by {
        forall j | 0 <= j < |links| ensures Joins(links'[j], a, b) == Joins(links[j], a, b) {
          if j != i {
            assert links'[j] == links[j];
          }
        }
      }
    }
  }

  /** Appending a link keeps the record of the pairs it does not join, and
      starts the record of a pair it is the first to join. */
  lemma AppendNumbers(links: seq<Link>, l: Link, a: string, b: string, xs: set<int>, xs': set<int>)
    requires NumbersAre(links, a, b, xs)
    requires Joins(l, a, b) ==> Unlinked(links, a, b) && (set x | x in l.numbers) == xs' && xs' != {}
    requires !Joins(l, a, b) ==> xs' == xs
    ensures NumbersAre(links + [l], a, b, xs')
  {
    var links' := links + [l];
    assert forall j :: 0 <= j < |links| ==> links'[j] == links[j];
    if Joins(l, a, b) {
      assert !Unlinked(links', a, b) by { assert Joins(links'[|links|], a, b); }
    } else {
      assert Unlinked(links', a, b) == Unlinked(links, a, b) by {
        forall j | 0 <= j < |links'| ensures Joins(links'[j], a, b) == (j < |links| && Joins(links[j], a, b)) {
        }
      }
    }
  }

  /** The found link of a pair gains `n`, and only that pair's record
      changes. */
  lemma FoundNumbers(links: seq<Link>, links': seq<Link>, i: nat, n: int, s: string, r: string,
                     a: string, b: string, xs: set<int>)
    requires a != b && NumbersAre(links, a, b, xs) && i < |links| == |links'|
    requires Joins(links[i], s, r)
    requires forall j :: 0 <= j < |links| && j != i ==> links'[j] == links[j] && (s != r ==> !Joins(links[j], s, r))
    requires links'[i].source == links[i].source && links'[i].target == links[i].target
    requires forall x :: x in links'[i].numbers <==> x in links[i].numbers || x == n
    ensures NumbersAre(links', a, b, xs + (if IsPair(s, r, a, b) then {n} else {}))
  {
    var xs' := xs + (if IsPair(s, r, a, b) then {n} else {});
    if IsPair(s, r, a, b) {
      var ns, ns' := links[i].numbers, links'[i].numbers;
      assert forall x :: x in ns' <==> x in ns || x == n;
      assert (set y | y in ns') == (set y | y in ns) + {n};
    } else {
      assert !Joins(links[i], a, b);
    }
    ReplaceNumbers(links, links', i, a, b, xs, xs');
  }

  lemma PairLinkNumbers(g: Graph, n: int, s: string, r: string, a: string, b: string, xs: set<int>)
    requires Valid(g) && a != b && NumbersAre(g.links, a, b, xs)
    ensures NumbersAre(PairLink(g, n, s, r).links, a, b, xs + (if IsPair(s, r, a, b) then {n} else {}))
  {
    var xs' := xs + (if IsPair(s, r, a, b) then {n} else {});
    match FindLink(g.links, s, r)
    case Some(i) =>
      PairLinkFound(g, n, s, r, i);
      if s != r {
        OnlyLink(g, s, r, i);
      }
      FoundNumbers(g.links, PairLink(g, n, s, r).links, i, n, s, r, a, b, xs);
    case None =>
      PairLinkNew(g, n, s, r);
      var l := Link(s, r, false, 1, [n], 1, 0, false);
      assert (set x | x in l.numbers) == {n};
      AppendNumbers(g.links, l, a, b, xs, xs');
  }

  lemma {:induction false} PairsFromNumbers(g: Graph, n: int, s: string, rs: seq<string>,
                                            a: string, b: string, xs: set<int>)
    requires Valid(g) && a != b && NumbersAre(g.links, a, b, xs)
    ensures NumbersAre(PairsFrom(g, n, s, rs).links, a, b, xs + (if Paired([s], rs, a, b) then {n} else {}))
  {
    if rs != [] {
      var init, last := rs[..|rs| - 1], rs[|rs| - 1];
      var xs0 := xs + (if Paired([s], init, a, b) then {n} else {});
      PairsFromNumbers(g, n, s, init, a, b, xs);
      PairsFromValid(g, n, s, init);
      PairLinkNumbers(PairsFrom(g, n, s, init), n, s, last, a, b, xs0);
      PairedLastReceiver(s, rs, a, b);
      AddTwice(xs, Paired([s], init, a, b), IsPair(s, last, a, b), n);
    }
  }

  lemma {:induction false} PairsNumbers(g: Graph, n: int, ss: seq<string>, rs: seq<string>,
                                        a: string, b: string, xs: set<int>)
    requires Valid(g) && a != b && NumbersAre(g.links, a, b, xs)
    ensures NumbersAre(Pairs(g, n, ss, rs).links, a, b, xs + (if Paired(ss, rs, a, b) then {n} else {}))
  {
    if ss != [] {
      var init, last := ss[..|ss| - 1], ss[|ss| - 1];
      var xs0 := xs + (if Paired(init, rs, a, b) then {n} else {});
      PairsNumbers(g, n, init, rs, a, b, xs);
      PairsValid(g, n, init, rs);
      PairsFromNumbers(Pairs(g, n, init, rs), n, last, rs, a, b, xs0);
      PairedLastSender(ss, rs, a, b);
      AddTwice(xs, Paired(init, rs, a, b), Paired([last], rs, a, b), n);
    }
  }

  /** Self-loops never join two different entities. */
  lemma {:induction false} LoopLinksNumbers(g: Graph, n: int, ss: seq<string>, a: string, b: string, xs: set<int>)
    requires a != b && NumbersAre(g.links, a, b, xs)
    ensures NumbersAre(LoopLinks(g, n, ss).links, a, b, xs)
  {
    if ss != [] {
      var g0 := LoopLinks(g, n, ss[..|ss| - 1]);
      LoopLinksNumbers(g, n, ss[..|ss| - 1], a, b, xs);
      var links := LoopLinks(g, n, ss).links;
      assert links == g0.links + [links[|g0.links|]];
      AppendNumbers(g0.links, links[|g0.links|], a, b, xs, xs);
    }
  }

  lemma LetterStepNumbers(g: Graph, d: Letter, a: string, b: string, xs: set<int>)
    requires Valid(g) && a != b && NumbersAre(g.links, a, b, xs)
    ensures NumbersAre(LetterStep(g, d).links, a, b, xs + (if PairsIn(d, a, b) then {d.number} else {}))
  {
    var S, R := Senders(d), Receivers(d);
    var g1 := g.(nodes := AddNodes(g.nodes, S));
    if IsLoopLetter(S, R) {
      LoopLinksNumbers(g1, d.number, S, a, b, xs);
    } else {
      var g2 := g1.(nodes := AddNodes(g1.nodes, R));
      assert Valid(g2) by { AddNodesFacts(g.nodes, S); AddNodesFacts(g1.nodes, R); }
      PairsNumbers(g2, d.number, S, R, a, b, xs);
    }
  }

  lemma {:induction false} BuildNumbers(data: seq<Letter>, a: string, b: string)
    requires a != b
    ensures NumbersAre(Build(Start, data).links, a, b, PairNumbers(data, a, b))
  {
    if data != [] {
      var init := data[..|data| - 1];
      BuildNumbers(init, a, b);
      BuildValid(init);
      LetterStepNumbers(Build(Start, init), data[|data| - 1], a, b, PairNumbers(init, a, b));
    }
  }

  /** `x` is among the numbers of the letters that pair `a` with `b` exactly
      when some such letter carries it. */
  lemma {:induction false} PairNumbersHas(data: seq<Letter>, a: string, b: string, x: int)
    ensures x in PairNumbers(data, a, b) <==>
              exists j :: 0 <= j < |data| && data[j].number == x && PairsIn(data[j], a, b)
  {
    if data != [] {
      var init, k := data[..|data| - 1], |data| - 1;
      PairNumbersHas(init, a, b, x);
      if x in PairNumbers(init, a, b) {
        var j :| 0 <= j < |init| && init[j].number == x && PairsIn(init[j], a, b);
        assert data[j] == init[j];
      } else if PairsIn(data[k], a, b) && data[k].number == x {
        assert x in PairNumbers(data, a, b);
      } else {
        assert x !in PairNumbers(data, a, b);
        forall j | 0 <= j < |data| && data[j].number == x ensures !PairsIn(data[j], a, b) {
          if j < k {
            assert init[j] == data[j];
          }
        }
      }
    }
  }

  /** After `processData`, every link joining two different entities lists
      each letter number once, and lists exactly the numbers of the letters
      outside the loop branch that have one of them among the senders and
      the other among the receivers; the two are joined by a link exactly
      when such a letter exists. */
  lemma ProcessDataNumbers(data: seq<Letter>, a: string, b: string)
    requires a != b
    ensures var links := Build(Start, data).links;
      forall i :: 0 <= i < |links| && Joins(links[i], a, b) ==>
        NoDup(links[i].numbers)
        && forall x :: x in links[i].numbers <==>
             exists j :: 0 <= j < |data| && data[j].number == x && PairsIn(data[j], a, b)
    ensures Unlinked(Build(Start, data).links, a, b) <==>
              forall j :: 0 <= j < |data| ==> !PairsIn(data[j], a, b)
  {
    var links := Build(Start, data).links;
    BuildValid(data);
    BuildNumbers(data, a, b);
    forall x ensures x in PairNumbers(data, a, b) <==>
                       exists j :: 0 <= j < |data| && data[j].number == x && PairsIn(data[j], a, b) {
      PairNumbersHas(data, a, b, x);
    }
    forall i | 0 <= i < |links| && Joins(links[i], a, b)
      ensures forall x :: x in links[i].numbers <==> x in PairNumbers(data, a, b)
    {
      assert (set x | x in links[i].numbers) == PairNumbers(data, a, b);
    }
    assert forall i :: 0 <= i < |links| ==> LinkShape(links[i]);
    if forall j :: 0 <= j < |data| ==> !PairsIn(data[j], a, b) {
      assert forall x :: x !in PairNumbers(data, a, b);
    } else {
      var j :| 0 <= j < |data| && PairsIn(data[j], a, b);
      assert data[j].number in PairNumbers(data, a, b);
    }
  }
}
