/** The directional counters of `processData`: for two different entities
    whose names do not contain the key separator, the link between them
    carries in `countAtoB` and `countBtoA` the number of sender-receiver
    pairs in each direction, summed over all letters outside the loop
    branch. */
module LinkGraphCounts {
  import opened Common
  import opened Letters
  import opened LinkGraph
  import opened LinkGraphFacts

  predicate AllNoArrow(names: seq<string>) {
    forall i :: 0 <= i < |names| ==> NoArrow(names[i])
  }

  /** Every sender and receiver name of every letter is free of the key
      separator. */
  predicate NamesOk(data: seq<Letter>) {
    forall i :: 0 <= i < |data| ==> AllNoArrow(Senders(data[i])) && AllNoArrow(Receivers(data[i]))
  }

  /** A link between two different entities carries the counts kept under
      its two keys, and is bidirectional exactly when the reverse count is
      positive. */
  predicate HalfCounts(l: Link, lc: map<string, Tally>) {
    l.source != l.target ==>
      NoArrow(l.source) && NoArrow(l.target)
      && l.countAtoB == TallyOf(lc, Key(l.source, l.target)).count
      && l.countAtoB >= 1
      && l.countBtoA == TallyOf(lc, Key(l.target, l.source)).count
      && l.countBtoA >= 0
      && l.bidirectional == (l.countBtoA > 0)
  }

  /** The invariant of the pair branch: links carry their counts, and a pair
      that no link joins has never been counted. */
  ghost predicate Tracks(g: Graph) {
    (forall i :: 0 <= i < |g.links| ==> HalfCounts(g.links[i], g.linkCounts))
    && (forall a, b :: a != b && NoArrow(a) && NoArrow(b) && Unlinked(g.links, a, b) ==>
          TallyOf(g.linkCounts, Key(a, b)).count == 0)
  }

  lemma KeyEq(a: string, b: string, c: string, d: string)
    requires NoArrow(a) && NoArrow(c)
    ensures Key(a, b) == Key(c, d) <==> a == c && b == d
  {
    if Key(a, b) == Key(c, d) {
      KeyInjective(a, b, c, d);
    }
  }

  // ---- the loop branch ----

  lemma LoopLinkTracks(g: Graph, n: int, s: string)
    requires NoArrow(s) && Tracks(g)
    ensures Tracks(LoopLink(g, n, s))
  {
    var g' := LoopLink(g, n, s);
    forall i | 0 <= i < |g'.links| ensures HalfCounts(g'.links[i], g'.linkCounts) {
      if i < |g.links| {
        var l := g.links[i];
        assert HalfCounts(l, g.linkCounts);
        if l.source != l.target {
          KeyEq(l.source, l.target, s, s);
          KeyEq(l.target, l.source, s, s);
        }
      }
    }
    forall a, b | a != b && NoArrow(a) && NoArrow(b) && Unlinked(g'.links, a, b)
      ensures TallyOf(g'.linkCounts, Key(a, b)).count == 0
    {
      KeyEq(a, b, s, s);
      assert forall i :: 0 <= i < |g.links| ==> g'.links[i] == g.links[i];
    }
  }

  lemma {:induction false} LoopLinksTracks(g: Graph, n: int, ss: seq<string>)
    requires AllNoArrow(ss) && Tracks(g)
    ensures Tracks(LoopLinks(g, n, ss))
  {
    if ss != [] {
      LoopLinksTracks(g, n, ss[..|ss| - 1]);
      LoopLinkTracks(LoopLinks(g, n, ss[..|ss| - 1]), n, ss[|ss| - 1]);
    }
  }

  /** The loop branch leaves the counters of every pair of different
      entities alone. */
  lemma {:induction false} LoopLinksTally(g: Graph, n: int, ss: seq<string>, a: string, b: string)
    requires AllNoArrow(ss) && NoArrow(a) && a != b
    ensures TallyOf(LoopLinks(g, n, ss).linkCounts, Key(a, b)) == TallyOf(g.linkCounts, Key(a, b))
  {
    if ss != [] {
      LoopLinksTally(g, n, ss[..|ss| - 1], a, b);
      KeyEq(a, b, ss[|ss| - 1], ss[|ss| - 1]);
    }
  }

  /** The loop link a sender listing pushes: from `s` to `s`, marked as a
      loop, with the running count `c` as count and as `countAtoB`, and
      nothing the other way. */
  predicate LoopOf(l: Link, s: string, c: int) {
    l.source == s && l.target == s && l.isLoop && l.count == c && l.countAtoB == c && l.countBtoA == 0
  }

  /** The loop branch counts every listing of `s` under `s→s`. */
  lemma {:induction false} LoopLinksOwnTally(g: Graph, n: int, ss: seq<string>, s: string)
    ensures TallyOf(LoopLinks(g, n, ss).linkCounts, Key(s, s)).count
            == TallyOf(g.linkCounts, Key(s, s)).count + Count(ss, s)
  {
    if ss != [] {
      var init, last := ss[..|ss| - 1], ss[|ss| - 1];
      LoopLinksOwnTally(g, n, init, s);
      if Key(last, last) == Key(s, s) {
        LoopKeyInjective(last, s);
      }
    }
  }

  /** The last sender listing appends its loop link, counted one past the
      tally of `s→s` before it. */
  lemma LoopLinksPush(g: Graph, n: int, ss: seq<string>)
    requires ss != []
    ensures var r0, r, s := LoopLinks(g, n, ss[..|ss| - 1]), LoopLinks(g, n, ss), ss[|ss| - 1];
      |r.links| == |r0.links| + 1 && r.links[..|r0.links|] == r0.links &&
      LoopOf(r.links[|r0.links|], s, TallyOf(r0.linkCounts, Key(s, s)).count + 1)
  {
    var r0, r := LoopLinks(g, n, ss[..|ss| - 1]), LoopLinks(g, n, ss);
    assert r.links[..|r0.links|] == r0.links;
  }

  /** The link at `from + k` is the loop link of the `k`-th listing in
      `ss`, carrying the running count of `s→s`: the count in `lc` before,
      plus the listings up to and including the `k`-th. */
  predicate LoopAt(links: seq<Link>, from: nat, ss: seq<string>, lc: map<string, Tally>, k: nat) {
    k < |ss| && from + k < |links| &&
    LoopOf(links[from + k], ss[k], TallyOf(lc, Key(ss[k], ss[k])).count + Count(ss[..k + 1], ss[k]))
  }

  /** From position `from` on, `links` holds exactly one loop link per
      listing in `ss`, in order. */
  predicate LoopsAppended(links: seq<Link>, from: nat, ss: seq<string>, lc: map<string, Tally>) {
    |links| == from + |ss| && forall k :: 0 <= k < |ss| ==> LoopAt(links, from, ss, lc, k)
  }

  /** The loop branch keeps the links already there and appends one loop
      link per sender listing, carrying the running count. */
  lemma {:induction false} LoopLinksFacts(g: Graph, n: int, ss: seq<string>)
    ensures var r := LoopLinks(g, n, ss);
      LoopsAppended(r.links, |g.links|, ss, g.linkCounts) && r.links[..|g.links|] == g.links
  {
    if ss != [] {
      var init, last := ss[..|ss| - 1], ss[|ss| - 1];
      var r0 := LoopLinks(g, n, init);
      var r := LoopLinks(g, n, ss);
      LoopLinksFacts(g, n, init);
      LoopLinksOwnTally(g, n, init, last);
      LoopLinksPush(g, n, ss);
      LoopLinksStep(g.links, r0.links, r.links, ss, last, g.linkCounts, TallyOf(r0.linkCounts, Key(last, last)).count);
    } else {
      assert g.links[..|g.links|] == g.links;
    }
  }

  /** The bookkeeping of one induction step of `LoopLinksFacts`, on plain
      sequences. */
  lemma LoopLinksStep(base: seq<Link>, before: seq<Link>, after: seq<Link>, ss: seq<string>,
                      last: string, lc: map<string, Tally>, t0: int)
    requires ss != [] && last == ss[|ss| - 1]
    requires LoopsAppended(before, |base|, ss[..|ss| - 1], lc) && before[..|base|] == base
    requires |after| == |before| + 1 && after[..|before|] == before
    requires t0 == TallyOf(lc, Key(last, last)).count + Count(ss[..|ss| - 1], last)
    requires LoopOf(after[|before|], last, t0 + 1)
    ensures LoopsAppended(after, |base|, ss, lc) && after[..|base|] == base
  {
    var init := ss[..|ss| - 1];
    assert ss == init + [last];
    CountSnoc(init, last, last);
    assert after[..|base|] == before[..|base|];
    forall k | 0 <= k < |ss| ensures LoopAt(after, |base|, ss, lc, k) {
      if k < |init| {
        assert LoopAt(before, |base|, init, lc, k);
        assert ss[k] == init[k] && ss[..k + 1] == init[..k + 1];
        assert after[|base| + k] == before[|base| + k];
      } else {
        assert ss[..k + 1] == ss && ss[k] == last;
        assert after[|base| + k] == after[|before|];
      }
    }
  }

  // ---- the pair branch ----

  /** One pair step counts exactly its own key. */
  lemma PairLinkTally(g: Graph, n: int, s: string, r: string, k: string)
    ensures TallyOf(PairLink(g, n, s, r).linkCounts, k).count
            == TallyOf(g.linkCounts, k).count + (if k == Key(s, r) then 1 else 0)
  {
    EnsureTally(g.linkCounts, Key(s, r), k);
    EnsureTally(Ensure(g.linkCounts, Key(s, r)), Key(r, s), k);
    EnsureTally(g.linkCounts, Key(s, r), Key(s, r));
    EnsureTally(Ensure(g.linkCounts, Key(s, r)), Key(r, s), Key(s, r));
  }

  /** The link `links.find` returns for two different entities is the only
      one joining them. */
  lemma OnlyLink(g: Graph, s: string, r: string, i: nat)
    requires Valid(g) && s != r && FindLink(g.links, s, r) == Some(i)
    ensures forall j :: 0 <= j < |g.links| && j != i ==> !Joins(g.links[j], s, r)
  {
    var links := g.links;
    forall j | 0 <= j < |links| && j != i ensures !Joins(links[j], s, r) {
      if j < i {
        assert links[..i][j] == links[j];
      } else {
        assert LinkShape(links[j]);
        if !links[j].isLoop {
          assert links[..j][i] == links[i];
          assert !Joins(links[..j][i], links[j].source, links[j].target);
        }
      }
    }
  }

  lemma PairLinkTracksSame(g: Graph, n: int, s: string)
    requires NoArrow(s) && Valid(g) && Tracks(g)
    ensures Tracks(PairLink(g, n, s, s))
  {
    var g' := PairLink(g, n, s, s);
    forall k ensures TallyOf(g'.linkCounts, k).count
                     == TallyOf(g.linkCounts, k).count + (if k == Key(s, s) then 1 else 0) {
      PairLinkTally(g, n, s, s, k);
    }
    assert |g.links| <= |g'.links|;
    forall j | 0 <= j < |g.links| && g.links[j].source != g.links[j].target
      ensures g'.links[j] == g.links[j]
    {
    }
    forall i | 0 <= i < |g'.links| ensures HalfCounts(g'.links[i], g'.linkCounts) {
      if i < |g.links| && g.links[i].source != g.links[i].target {
        var l := g.links[i];
        assert HalfCounts(l, g.linkCounts);
        KeyEq(l.source, l.target, s, s);
        KeyEq(l.target, l.source, s, s);
      }
    }
    forall a, b | a != b && NoArrow(a) && NoArrow(b) && Unlinked(g'.links, a, b)
      ensures TallyOf(g'.linkCounts, Key(a, b)).count == 0
    {
      KeyEq(a, b, s, s);
      forall j | 0 <= j < |g.links| ensures !Joins(g.links[j], a, b) {
        assert !Joins(g'.links[j], a, b);
      }
    }
  }

  lemma PairLinkTracksFound(g: Graph, n: int, s: string, r: string, i: nat)
    requires NoArrow(s) && NoArrow(r) && s != r && Valid(g) && Tracks(g)
    requires FindLink(g.links, s, r) == Some(i)
    ensures Tracks(PairLink(g, n, s, r))
  {
    var g' := PairLink(g, n, s, r);
    forall k ensures TallyOf(g'.linkCounts, k).count
                     == TallyOf(g.linkCounts, k).count + (if k == Key(s, r) then 1 else 0) {
      PairLinkTally(g, n, s, r, k);
    }
    OnlyLink(g, s, r, i);
    KeyEq(r, s, s, r);
    var l := g.links[i];
    assert HalfCounts(l, g.linkCounts) && LinkShape(l);
    assert Joins(g'.links[i], s, r);
    forall j | 0 <= j < |g'.links| ensures HalfCounts(g'.links[j], g'.linkCounts) {
      if j == i {
        var c := TallyOf(g'.linkCounts, Key(s, r)).count;
        var back := TallyOf(g'.linkCounts, Key(r, s)).count;
        assert g'.links[i].bidirectional == (back > 0);
        if l.source == s {
          assert l.target == r;
          assert g'.links[i].countBtoA == l.countBtoA == back;
        } else {
          assert l.source == r && l.target == s;
          assert back == l.countAtoB >= 1;
          assert g'.links[i].countBtoA == c >= 1;
        }
      } else {
        var m := g.links[j];
        assert HalfCounts(m, g.linkCounts);
        if m.source != m.target {
          KeyEq(m.source, m.target, s, r);
          KeyEq(m.target, m.source, s, r);
        }
      }
    }
    forall a, b | a != b && NoArrow(a) && NoArrow(b) && Unlinked(g'.links, a, b)
      ensures TallyOf(g'.linkCounts, Key(a, b)).count == 0
    {
      KeyEq(a, b, s, r);
      forall j | 0 <= j < |g.links| ensures !Joins(g.links[j], a, b) {
        assert !Joins(g'.links[j], a, b);
      }
    }
  }

  lemma PairLinkTracksNew(g: Graph, n: int, s: string, r: string)
    requires NoArrow(s) && NoArrow(r) && s != r && Valid(g) && Tracks(g)
    requires FindLink(g.links, s, r) == None
    ensures Tracks(PairLink(g, n, s, r))
  {
    var g' := PairLink(g, n, s, r);
    forall k ensures TallyOf(g'.linkCounts, k).count
                     == TallyOf(g.linkCounts, k).count + (if k == Key(s, r) then 1 else 0) {
      PairLinkTally(g, n, s, r, k);
    }
    KeyEq(r, s, s, r);
    assert Unlinked(g.links, r, s);
    forall j | 0 <= j < |g'.links| ensures HalfCounts(g'.links[j], g'.linkCounts) {
      if j < |g.links| {
        var m := g.links[j];
        assert HalfCounts(m, g.linkCounts) && !Joins(m, s, r);
        if m.source != m.target {
          KeyEq(m.source, m.target, s, r);
          KeyEq(m.target, m.source, s, r);
        }
      }
    }
    assert Joins(g'.links[|g.links|], s, r);
    forall a, b | a != b && NoArrow(a) && NoArrow(b) && Unlinked(g'.links, a, b)
      ensures TallyOf(g'.linkCounts, Key(a, b)).count == 0
    {
      KeyEq(a, b, s, r);
      forall j | 0 <= j < |g.links| ensures !Joins(g.links[j], a, b) {
        assert !Joins(g'.links[j], a, b);
      }
    }
  }

  lemma PairLinkTracks(g: Graph, n: int, s: string, r: string)
    requires NoArrow(s) && NoArrow(r) && Valid(g) && Tracks(g)
    ensures Tracks(PairLink(g, n, s, r))
  {
    if s == r {
      PairLinkTracksSame(g, n, s);
    } else {
      match FindLink(g.links, s, r)
      case Some(i) => PairLinkTracksFound(g, n, s, r, i);
      case None => PairLinkTracksNew(g, n, s, r);
    }
  }

  lemma {:induction false} PairsFromTracks(g: Graph, n: int, s: string, rs: seq<string>)
    requires NoArrow(s) && AllNoArrow(rs) && Valid(g) && Tracks(g)
    ensures Tracks(PairsFrom(g, n, s, rs))
  {
    if rs != [] {
      PairsFromTracks(g, n, s, rs[..|rs| - 1]);
      PairsFromValid(g, n, s, rs[..|rs| - 1]);
      PairLinkTracks(PairsFrom(g, n, s, rs[..|rs| - 1]), n, s, rs[|rs| - 1]);
    }
  }

  lemma {:induction false} PairsTracks(g: Graph, n: int, ss: seq<string>, rs: seq<string>)
    requires AllNoArrow(ss) && AllNoArrow(rs) && Valid(g) && Tracks(g)
    ensures Tracks(Pairs(g, n, ss, rs))
  {
    if ss != [] {
      PairsTracks(g, n, ss[..|ss| - 1], rs);
      PairsValid(g, n, ss[..|ss| - 1], rs);
      PairsFromTracks(Pairs(g, n, ss[..|ss| - 1], rs), n, ss[|ss| - 1], rs);
    }
  }

  /** The pair steps for sender `s` count the pair (`a`, `b`) once per
      occurrence of `b` among the receivers when `s` is `a`. */
  lemma {:induction false} PairsFromTally(g: Graph, n: int, s: string, rs: seq<string>, a: string, b: string)
    requires NoArrow(s) && NoArrow(a)
    ensures TallyOf(PairsFrom(g, n, s, rs).linkCounts, Key(a, b)).count
            == TallyOf(g.linkCounts, Key(a, b)).count + (if s == a then Count(rs, b) else 0)
  {
    if rs != [] {
      PairsFromTally(g, n, s, rs[..|rs| - 1], a, b);
      PairLinkTally(PairsFrom(g, n, s, rs[..|rs| - 1]), n, s, rs[|rs| - 1], Key(a, b));
      KeyEq(a, b, s, rs[|rs| - 1]);
    }
  }

  /** All pair steps of one letter count (`a`, `b`) as often as `a` occurs
      among the senders times as often as `b` occurs among the receivers. */
  lemma {:induction false} PairsTally(g: Graph, n: int, ss: seq<string>, rs: seq<string>, a: string, b: string)
    requires AllNoArrow(ss) && NoArrow(a)
    ensures TallyOf(Pairs(g, n, ss, rs).linkCounts, Key(a, b)).count
            == TallyOf(g.linkCounts, Key(a, b)).count + Count(ss, a) * Count(rs, b)
  {
    if ss != [] {
      var init, s := ss[..|ss| - 1], ss[|ss| - 1];
      assert AllNoArrow(init);
      PairsTally(g, n, init, rs, a, b);
      PairsFromTally(Pairs(g, n, init, rs), n, s, rs, a, b);
      var e := if s == a then 1 else 0;
      assert Count(ss, a) == Count(init, a) + e;
      calc {
        Count(ss, a) * Count(rs, b);
        (Count(init, a) + e) * Count(rs, b);
        Count(init, a) * Count(rs, b) + e * Count(rs, b);
      }
    }
  }

  /** What one letter adds to the counter of the ordered pair (`a`, `b`):
      nothing in the loop branch, every sender-receiver occurrence
      otherwise. */
  function PairContribution(d: Letter, a: string, b: string): nat {
    var S, R := Senders(d), Receivers(d);
    if IsLoopLetter(S, R) then 0 else Count(S, a) * Count(R, b)
  }

  /** The reference count of the ordered pair (`a`, `b`) over the letters. */
  function PairCount(data: seq<Letter>, a: string, b: string): nat {
    if data == [] then 0
    else PairCount(data[..|data| - 1], a, b) + PairContribution(data[|data| - 1], a, b)
  }

  lemma LetterStepTally(g: Graph, d: Letter, a: string, b: string)
    requires AllNoArrow(Senders(d)) && NoArrow(a) && a != b
    ensures TallyOf(LetterStep(g, d).linkCounts, Key(a, b)).count
            == TallyOf(g.linkCounts, Key(a, b)).count + PairContribution(d, a, b)
  {
    var S, R := Senders(d), Receivers(d);
    var g1 := g.(nodes := AddNodes(g.nodes, S));
    if IsLoopLetter(S, R) {
      LoopLinksTally(g1, d.number, S, a, b);
    } else {
      PairsTally(g1.(nodes := AddNodes(g1.nodes, R)), d.number, S, R, a, b);
    }
  }

  lemma LetterStepTracks(g: Graph, d: Letter)
    requires AllNoArrow(Senders(d)) && AllNoArrow(Receivers(d)) && Valid(g) && Tracks(g)
    ensures Tracks(LetterStep(g, d))
  {
    var S, R := Senders(d), Receivers(d);
    var g1 := g.(nodes := AddNodes(g.nodes, S));
    assert Valid(g1) by {
      AddNodesFacts(g.nodes, S);
    }
    if IsLoopLetter(S, R) {
      LoopLinksTracks(g1, d.number, S);
    } else {
      AddNodesFacts(g1.nodes, R);
      PairsTracks(g1.(nodes := AddNodes(g1.nodes, R)), d.number, S, R);
    }
  }

  lemma {:induction false} BuildTracks(data: seq<Letter>)
    requires NamesOk(data)
    ensures Tracks(Build(Start, data))
  {
    if data != [] {
      var init := data[..|data| - 1];
      assert NamesOk(init) by {
        assert forall i :: 0 <= i < |init| ==> init[i] == data[i];
      }
      BuildTracks(init);
      BuildValid(init);
      LetterStepTracks(Build(Start, init), data[|data| - 1]);
    }
  }

  lemma {:induction false} BuildTally(data: seq<Letter>, a: string, b: string)
    requires NamesOk(data) && NoArrow(a) && a != b
    ensures TallyOf(Build(Start, data).linkCounts, Key(a, b)).count == PairCount(data, a, b)
  {
    if data != [] {
      var init := data[..|data| - 1];
      assert NamesOk(init) by {
        assert forall i :: 0 <= i < |init| ==> init[i] == data[i];
      }
      BuildTally(init, a, b);
      LetterStepTally(Build(Start, init), data[|data| - 1], a, b);
    }
  }

  /** `processData` on letters whose names do not contain the key separator:
      a link between two different entities counts, in `countAtoB` and
      `countBtoA`, the sender-receiver occurrences in each direction over
      the letters outside the loop branch; `count` is their sum and
      `bidirectional` says whether the reverse direction occurred. Every
      pair that occurs in some direction has a link. */
  lemma ProcessDataCounts(data: seq<Letter>)
    requires NamesOk(data)
    ensures var links := Build(Start, data).links;
      forall i :: 0 <= i < |links| && links[i].source != links[i].target ==>
        links[i].countAtoB == PairCount(data, links[i].source, links[i].target) &&
        links[i].countBtoA == PairCount(data, links[i].target, links[i].source) &&
        links[i].count == links[i].countAtoB + links[i].countBtoA &&
        links[i].bidirectional == (links[i].countBtoA > 0)
    ensures var links := Build(Start, data).links;
      forall a, b :: a != b && NoArrow(a) && NoArrow(b) && PairCount(data, a, b) > 0 ==>
        !Unlinked(links, a, b)
  {
    var g := Build(Start, data);
    BuildTracks(data);
    BuildValid(data);
    forall i | 0 <= i < |g.links| && g.links[i].source != g.links[i].target
      ensures g.links[i].countAtoB == PairCount(data, g.links[i].source, g.links[i].target)
      ensures g.links[i].countBtoA == PairCount(data, g.links[i].target, g.links[i].source)
    {
      var l := g.links[i];
      assert HalfCounts(l, g.linkCounts);
      BuildTally(data, l.source, l.target);
      BuildTally(data, l.target, l.source);
    }
    assert forall i :: 0 <= i < |g.links| ==> LinkShape(g.links[i]) && HalfCounts(g.links[i], g.linkCounts);
    forall a, b | a != b && NoArrow(a) && NoArrow(b) && PairCount(data, a, b) > 0
      ensures !Unlinked(g.links, a, b)
    {
      BuildTally(data, a, b);
    }
  }
}
