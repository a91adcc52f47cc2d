/** The search box of the browser application (code/ecoSystem/webservice/js/app.js):
    `parseSearchQuery` splits a query into an exact phrase in double quotes
    and the remaining words, and `combineResults` merges the exact-phrase
    and word hits into one ranking. */
module Query {
  import opened Common
  import opened Text
  import opened Sorting

  // ---- words: `s.split(/\s+/).filter(word => word.length > 0)` ----

  predicate SpaceFree(w: string) {
    forall i :: 0 <= i < |w| ==> !IsJsSpace(w[i])
  }

  /** Length of the leading run of non-space characters. */
  function RunLength(s: string): (k: nat)
    ensures k <= |s|
    ensures SpaceFree(s[..k])
    ensures k < |s| ==> IsJsSpace(s[k])
  {
    if s == [] || IsJsSpace(s[0]) then 0
    else
      var k := RunLength(s[1..]);
      assert s[..1 + k] == [s[0]] + s[1..][..k];
      1 + k
  }

  /** The maximal runs of non-space characters, in order. */
  function Words(s: string): (r: seq<string>)
    ensures forall k :: 0 <= k < |r| ==> r[k] != [] && SpaceFree(r[k])
    decreases |s|
  {
    if s == [] then []
    else if IsJsSpace(s[0]) then Words(s[1..])
    else
      var k := RunLength(s);
      [s[..k]] + Words(s[k..])
  }

  lemma {:induction false} RunLengthSpaceAfter(s: string, c: char)
    requires IsJsSpace(c)
    ensures RunLength(s + [c]) == RunLength(s)
  {
    if s != [] && !IsJsSpace(s[0]) {
      assert (s + [c])[1..] == s[1..] + [c];
      RunLengthSpaceAfter(s[1..], c);
    }
  }

  /** A trailing space adds no word. */
  lemma {:induction false} WordsSpaceAfter(s: string, c: char)
    requires IsJsSpace(c)
    ensures Words(s + [c]) == Words(s)
    decreases |s|
  {
    if s == [] {
      assert Words([c]) == Words([]);
    } else if IsJsSpace(s[0]) {
      assert (s + [c])[1..] == s[1..] + [c];
      WordsSpaceAfter(s[1..], c);
    } else {
      var k := RunLength(s);
      RunLengthSpaceAfter(s, c);
      assert (s + [c])[..k] == s[..k];
      assert (s + [c])[k..] == s[k..] + [c];
      WordsSpaceAfter(s[k..], c);
    }
  }

  lemma {:induction false} WordsTrailing(s: string, n: nat)
    requires n <= |s|
    requires forall i :: n <= i < |s| ==> IsJsSpace(s[i])
    ensures Words(s[..n]) == Words(s)
    decreases |s| - n
  {
    if n < |s| {
      WordsTrailing(s, n + 1);
      assert s[..n + 1] == s[..n] + [s[n]];
      WordsSpaceAfter(s[..n], s[n]);
    } else {
      assert s[..n] == s;
    }
  }

  lemma {:induction false} WordsLeading(s: string, n: nat)
    requires n <= |s|
    requires forall i :: 0 <= i < n ==> IsJsSpace(s[i])
    ensures Words(s[n..]) == Words(s)
  {
    if n > 0 {
      assert s[1..][n - 1..] == s[n..];
      WordsLeading(s[1..], n - 1);
    }
  }

  /** Trimming first changes nothing about the words. */
  lemma WordsTrim(s: string)
    ensures Words(Trim(s, false)) == Words(s)
  {
    var a := SkipSpace(s, 0, false);
    var r := Trim(s, false);
    WordsLeading(s, a);
    var t := s[a..];
    assert r == t[..|r|];
    WordsTrailing(t, |r|);
  }

  lemma {:induction false} RunLengthOfWord(w: string, t: string)
    requires SpaceFree(w)
    requires t == [] || IsJsSpace(t[0])
    ensures RunLength(w + t) == |w|
  {
    if w != [] {
      assert (w + t)[1..] == w[1..] + t;
      RunLengthOfWord(w[1..], t);
    } else {
      assert w + t == t;
    }
  }

  /** Splitting words joined by single spaces gives the words back. */
  lemma {:induction false} WordsJoin(ws: seq<string>)
    requires forall k :: 0 <= k < |ws| ==> ws[k] != [] && SpaceFree(ws[k])
    ensures Words(Join(ws, ' ')) == ws
  {
    if |ws| == 1 {
      RunLengthOfWord(ws[0], []);
      assert ws[0] + [] == ws[0];
      assert ws[0][|ws[0]|..] == [];
    } else if |ws| > 1 {
      var rest := Join(ws[1..], ' ');
      var s := ws[0] + [' '] + rest;
      assert Join(ws, ' ') == s;
      RunLengthOfWord(ws[0], [' '] + rest);
      assert s == ws[0] + ([' '] + rest);
      assert s[..|ws[0]|] == ws[0];
      assert s[|ws[0]|..] == [' '] + rest;
      assert ([' '] + rest)[1..] == rest;
      WordsJoin(ws[1..]);
      assert ws == [ws[0]] + ws[1..];
    }
  }

  // ---- the exact phrase: `query.match(/"(.*?)"/)` ----

  /** The first double quote at or after `k`. */
  function NextQuote(q: string, k: nat): (r: Option<nat>)
    requires k <= |q|
    ensures r.Some? ==>
              k <= r.value < |q| && q[r.value] == '"' && forall t :: k <= t < r.value ==> q[t] != '"'
    ensures r.None? ==> forall t :: k <= t < |q| ==> q[t] != '"'
    decreases |q| - k
  {
    if k == |q| then None else if q[k] == '"' then Some(k) else NextQuote(q, k + 1)
  }

  predicate NoLineBreak(q: string, a: nat, b: nat)
    requires a <= b <= |q|
  {
    forall t :: a <= t < b ==> !IsLineTerminator(q[t])
  }

  /** The lazy match can start at `k`: a quote, then the next quote with no
      line terminator in between (`.` does not match one). */
  predicate Opens(q: string, k: nat)
    requires k < |q|
  {
    q[k] == '"' &&
    match NextQuote(q, k + 1)
    case Some(j) => NoLineBreak(q, k + 1, j)
    case None => false
  }

  /** The leftmost match at or after `from`, as the positions of its two
      quotes. */
  function FindPhrase(q: string, from: nat): (r: Option<(nat, nat)>)
    requires from <= |q|
    ensures r.Some? ==>
              from <= r.value.0 < r.value.1 < |q| && Opens(q, r.value.0) &&
              NextQuote(q, r.value.0 + 1) == Some(r.value.1) &&
              forall k :: from <= k < r.value.0 ==> !Opens(q, k)
    ensures r.None? ==> forall k :: from <= k < |q| ==> !Opens(q, k)
    decreases |q| - from
  {
    if from == |q| then None
    else if Opens(q, from) then Some((from, NextQuote(q, from + 1).value))
    else FindPhrase(q, from + 1)
  }

  // ---- `query.replace(pattern, '')` with a string pattern ----

  /** The first occurrence of `pat` at or after `from`. */
  function IndexOf(s: string, pat: string, from: nat): (r: Option<nat>)
    requires from <= |s|
    ensures r.Some? ==>
              from <= r.value && OccursAt(s, pat, r.value) &&
              forall k :: from <= k < r.value ==> !OccursAt(s, pat, k)
    ensures r.None? ==> forall k :: from <= k <= |s| ==> !OccursAt(s, pat, k)
    decreases |s| - from
  {
    if OccursAt(s, pat, from) then Some(from)
    else if from == |s| then None
    else IndexOf(s, pat, from + 1)
  }

  /** `s.replace(pat, rep)`: the first occurrence replaced, if there is one. */
  function ReplaceFirst(s: string, pat: string, rep: string): string {
    match IndexOf(s, pat, 0)
    case Some(i) => s[..i] + rep + s[i + |pat|..]
    case None => s
  }

  // ---- parseSearchQuery ----

  datatype ParsedQuery = ParsedQuery(exactPhrase: Option<string>, words: seq<string>)

  function ExactPhrase(q: string): Option<string> {
    match FindPhrase(q, 0)
    case Some((i, j)) => Some(q[i + 1..j])
    case None => None
  }

  /** `parseSearchQuery`: the phrase between the first matching pair of
      quotes (the empty phrase counts as no phrase when the words are taken)
      and the words of the rest. */
  function ParseSearchQuery(query: string): (r: ParsedQuery)
    ensures r.exactPhrase.Some? ==> '"' !in r.exactPhrase.value
    ensures forall k :: 0 <= k < |r.words| ==> r.words[k] != [] && SpaceFree(r.words[k])
  {
    var exactPhrase := ExactPhrase(query);
    var wordsQuery :=
      if exactPhrase.Some? && exactPhrase.value != "" then
        Trim(ReplaceFirst(query, "\"" + exactPhrase.value + "\"", ""), false)
      else query;
    ParsedQuery(exactPhrase, Words(wordsQuery))
  }

  /** Without a quote there is no phrase and the words are those of the
      whole query. */
  lemma ParseNoQuote(query: string)
    requires '"' !in query
    ensures ParseSearchQuery(query) == ParsedQuery(None, Words(query))
  {
    assert forall k :: 0 <= k < |query| ==> query[k] in query && !Opens(query, k);
  }

  /** Without a match (no quote, or a quote that is never closed on its
      line) there is no phrase, and the words are those of the whole query,
      quotes included. */
  lemma ParseUnmatched(query: string)
    requires FindPhrase(query, 0) == None
    ensures ParseSearchQuery(query) == ParsedQuery(None, Words(query))
  {
  }

  /** An empty phrase `""` is reported as the phrase, but, being falsy,
      leaves the words to be taken from the whole query with the quotes in
      it. */
  lemma ParseEmptyPhrase(query: string, i: nat)
    requires FindPhrase(query, 0) == Some((i, i + 1))
    ensures ParseSearchQuery(query) == ParsedQuery(Some(""), Words(query))
  {
  }

  /** The phrase the regular expression finds is the first occurrence of
      `"phrase"` in the query, so `replace` removes exactly the match. */
  lemma PhraseIsFirstOccurrence(q: string, i: nat, j: nat)
    requires FindPhrase(q, 0) == Some((i, j))
    ensures IndexOf(q, q[i..j + 1], 0) == Some(i)
  {
    var pat := q[i..j + 1];
    var p := q[i + 1..j];
    assert OccursAt(q, pat, i);
    forall k | 0 <= k < i && OccursAt(q, pat, k) ensures Opens(q, k) {
      assert q[k] == pat[0] == '"';
      assert q[k + |pat| - 1] == pat[|pat| - 1] == '"';
      forall t | k + 1 <= t < k + |pat| - 1 ensures q[t] != '"' && !IsLineTerminator(q[t]) {
        assert q[t] == pat[t - k] == q[i + (t - k)];
      }
      var m := NextQuote(q, k + 1);
      assert m == Some(k + |pat| - 1);
    }
  }

  /** With a non-empty phrase found between the quotes at `i` and `j`, the
      words are those of the query with the quoted phrase cut out. */
  lemma ParsePhrase(q: string, i: nat, j: nat)
    requires FindPhrase(q, 0) == Some((i, j)) && j > i + 1
    ensures ParseSearchQuery(q) == ParsedQuery(Some(q[i + 1..j]), Words(q[..i] + q[j + 1..]))
  {
    var p := q[i + 1..j];
    assert "\"" + p + "\"" == q[i..j + 1];
    PhraseIsFirstOccurrence(q, i, j);
    assert ReplaceFirst(q, q[i..j + 1], "") == q[..i] + q[j + 1..];
    WordsTrim(q[..i] + q[j + 1..]);
  }

  /** A query written as `a "p" b`, with no quote before the phrase and a
      phrase without quotes and line breaks, gives back the phrase and the
      words of `a` and `b` around it. */
  lemma ParseQuoted(a: string, p: string, b: string)
    requires '"' !in a && '"' !in p && forall t :: 0 <= t < |p| ==> !IsLineTerminator(p[t])
    requires p != ""
    ensures ParseSearchQuery(a + "\"" + p + "\"" + b) == ParsedQuery(Some(p), Words(a + b))
  {
    var q := a + "\"" + p + "\"" + b;
    var i, j := |a|, |a| + |p| + 1;
    forall k | 0 <= k < i ensures !Opens(q, k) {
      assert q[k] == a[k] && a[k] in a;
    }
    forall t | i + 1 <= t < j ensures q[t] != '"' && !IsLineTerminator(q[t]) {
      assert q[t] == p[t - i - 1] && p[t - i - 1] in p;
    }
    assert q[j] == '"';
    assert NextQuote(q, i + 1) == Some(j);
    assert Opens(q, i);
    assert FindPhrase(q, 0) == Some((i, j)) by {
      FirstOpening(q, 0, i);
    }
    assert q[i + 1..j] == p;
    assert q[..i] == a && q[j + 1..] == b;
    ParsePhrase(q, i, j);
  }

  /** The scan stops at the first position where a match opens. */
  lemma {:induction false} FirstOpening(q: string, from: nat, i: nat)
    requires from <= i < |q| && Opens(q, i)
    requires forall k :: from <= k < i ==> !Opens(q, k)
    ensures FindPhrase(q, from) == Some((i, NextQuote(q, i + 1).value))
    decreases i - from
  {
    if from < i {
      FirstOpening(q, from + 1, i);
    }
  }

  // ---- combineResults ----

  /** A search hit from the server: the letter number and its score (the
      other fields of the record ride along unchanged and are not modelled). */
  datatype Hit = Hit(number: int, score: real)

  /** An entry of the combined list: the hit, whether it came from the
      exact-phrase search, and the score the ranking uses. */
  datatype Entry = Entry(hit: Hit, isExactMatch: bool, score: real)

  function Id(e: Entry): int { e.hit.number }

  /** The letter numbers of the entries, in order. */
  function Ids(es: seq<Entry>): (r: seq<int>)
    ensures |r| == |es| && forall k :: 0 <= k < |es| ==> r[k] == Id(es[k])
  {
    if es == [] then [] else Ids(es[..|es| - 1]) + [Id(es[|es| - 1])]
  }

  function Numbers(hits: seq<Hit>): (r: seq<int>)
    ensures |r| == |hits| && forall k :: 0 <= k < |hits| ==> r[k] == hits[k].number
  {
    if hits == [] then [] else Numbers(hits[..|hits| - 1]) + [hits[|hits| - 1].number]
  }

  /** An exact-phrase hit, marked and with its score raised by half. */
  function Boosted(h: Hit): Entry { Entry(h, true, h.score * 1.5) }

  /** A word hit, unmarked and with its own score. */
  function Plain(h: Hit): Entry { Entry(h, false, h.score) }

  /** The position of the entry with letter number `x`. */
  function Position(es: seq<Entry>, x: int): (r: Option<nat>)
    ensures r.Some? ==> r.value < |es| && Id(es[r.value]) == x
    ensures r.None? ==> x !in Ids(es)
  {
    if es == [] then None
    else if Id(es[|es| - 1]) == x then Some(|es| - 1)
    else
      var r := Position(es[..|es| - 1], x);
      assert Ids(es) == Ids(es[..|es| - 1]) + [Id(es[|es| - 1])];
      r
  }

  /** `resultMap.set(id, e)` on an insertion-ordered map: an existing entry
      is overwritten in its place, a new one goes to the end. */
  function Put(es: seq<Entry>, e: Entry): seq<Entry> {
    match Position(es, Id(e))
    case Some(k) => es[k := e]
    case None => es + [e]
  }

  /** The map after the exact-phrase loop. */
  function ExactPass(es: seq<Entry>, exact: seq<Hit>): seq<Entry> {
    if exact == [] then es
    else Put(ExactPass(es, exact[..|exact| - 1]), Boosted(exact[|exact| - 1]))
  }

  /** The map after the word loop: a word hit is added only for a letter
      not yet in the map. */
  function WordPass(es: seq<Entry>, word: seq<Hit>): seq<Entry> {
    if word == [] then es
    else
      var acc := WordPass(es, word[..|word| - 1]);
      var h := word[|word| - 1];
      if h.number in Ids(acc) then acc else acc + [Plain(h)]
  }

  /** `Array.from(resultMap.values())`. */
  function Merge(exact: seq<Hit>, word: seq<Hit>): seq<Entry> {
    WordPass(ExactPass([], exact), word)
  }

  function EntryScore(e: Entry): real { e.score }

  /** `combineResults`: the two loops fill the map, then the entries are
      sorted by descending score. */
  method CombineResults(exactResults: seq<Hit>, wordResults: seq<Hit>) returns (r: seq<Entry>)
    ensures r == SortDesc(Merge(exactResults, wordResults), EntryScore)
  {
    var resultMap: seq<Entry> := [];
    for i := 0 to |exactResults|
      invariant resultMap == ExactPass([], exactResults[..i])
    {
      resultMap := Put(resultMap, Boosted(exactResults[i]));
      assert exactResults[..i + 1][..i] == exactResults[..i];
    }
    assert exactResults[..|exactResults|] == exactResults;
    ghost var afterExact := resultMap;
    for i := 0 to |wordResults|
      invariant resultMap == WordPass(afterExact, wordResults[..i])
    {
      var result := wordResults[i];
      if result.number !in Ids(resultMap) {
        resultMap := resultMap + [Plain(result)];
      }
      assert wordResults[..i + 1][..i] == wordResults[..i];
    }
    assert wordResults[..|wordResults|] == wordResults;
    r := SortDesc(resultMap, EntryScore);
  }

  // ---- what the merged map holds ----

  /** The last hit with letter number `x`. */
  function LastWith(hits: seq<Hit>, x: int): (r: Option<Hit>)
    ensures r.Some? ==> r.value in hits && r.value.number == x
    ensures r.None? <==> x !in Numbers(hits)
  {
    if hits == [] then None
    else if hits[|hits| - 1].number == x then Some(hits[|hits| - 1])
    else
      assert Numbers(hits) == Numbers(hits[..|hits| - 1]) + [hits[|hits| - 1].number];
      LastWith(hits[..|hits| - 1], x)
  }

  /** The first hit with letter number `x`. */
  function FirstWith(hits: seq<Hit>, x: int): (r: Option<Hit>)
    ensures r.Some? ==> r.value in hits && r.value.number == x
    ensures r.None? <==> x !in Numbers(hits)
  {
    if hits == [] then None
    else
      assert Numbers(hits) == Numbers(hits[..|hits| - 1]) + [hits[|hits| - 1].number];
      var f := FirstWith(hits[..|hits| - 1], x);
      if f.Some? then f else if hits[|hits| - 1].number == x then Some(hits[|hits| - 1]) else None
  }

  lemma PutFacts(es: seq<Entry>, e: Entry)
    requires NoDup(Ids(es))
    ensures NoDup(Ids(Put(es, e)))
    ensures forall x :: x in Ids(Put(es, e)) <==> x in Ids(es) || x == Id(e)
    ensures e in Put(es, e)
    ensures forall m :: m in Put(es, e) ==> m == e || (m in es && Id(m) != Id(e))
  {
    var p := Put(es, e);
    match Position(es, Id(e))
    case Some(k) =>
      assert p[k] == e;
      assert Ids(p) == Ids(es);
      forall m | m in p ensures m == e || (m in es && Id(m) != Id(e)) {
        var t :| 0 <= t < |p| && p[t] == m;
        if t != k {
          assert Ids(es)[t] != Ids(es)[k];
        }
      }
    case None =>
      assert Ids(p) == Ids(es) + [Id(e)];
  }

  /** After the exact loop every letter number of an exact hit has one
      entry: the last such hit, boosted. */
  lemma {:induction false} ExactPassFacts(exact: seq<Hit>)
    ensures NoDup(Ids(ExactPass([], exact)))
    ensures forall x :: x in Ids(ExactPass([], exact)) <==> x in Numbers(exact)
    ensures forall m :: m in ExactPass([], exact) ==>
              LastWith(exact, Id(m)).Some? && m == Boosted(LastWith(exact, Id(m)).value)
  {
    if exact != [] {
      var init, h := exact[..|exact| - 1], exact[|exact| - 1];
      ExactPassFacts(init);
      PutFacts(ExactPass([], init), Boosted(h));
      assert Numbers(exact) == Numbers(init) + [h.number];
    }
  }

  /** The word loop keeps every entry and adds, for each new letter number,
      its first word hit. */
  lemma {:induction false} WordPassFacts(es: seq<Entry>, word: seq<Hit>)
    requires NoDup(Ids(es))
    ensures NoDup(Ids(WordPass(es, word)))
    ensures forall x :: x in Ids(WordPass(es, word)) <==> x in Ids(es) || x in Numbers(word)
    ensures forall m :: m in es ==> m in WordPass(es, word)
    ensures forall m :: m in WordPass(es, word) ==>
              m in es || (Id(m) !in Ids(es) && FirstWith(word, Id(m)).Some? && m == Plain(FirstWith(word, Id(m)).value))
  {
    if word != [] {
      var init, h := word[..|word| - 1], word[|word| - 1];
      WordPassFacts(es, init);
      var acc := WordPass(es, init);
      assert Numbers(word) == Numbers(init) + [h.number];
      if h.number !in Ids(acc) {
        assert Ids(acc + [Plain(h)]) == Ids(acc) + [h.number];
        assert FirstWith(init, h.number).None?;
      }
    }
  }

  /** The merged map holds one entry per letter number found by either
      search: the last exact hit, boosted and marked, when there is one, and
      otherwise the first word hit, unmarked. */
  lemma MergeFacts(exact: seq<Hit>, word: seq<Hit>)
    ensures NoDup(Ids(Merge(exact, word)))
    ensures forall x :: x in Ids(Merge(exact, word)) <==> x in Numbers(exact) || x in Numbers(word)
    ensures forall m :: m in Merge(exact, word) ==>
              (m.isExactMatch <==> Id(m) in Numbers(exact)) &&
              (Id(m) in Numbers(exact) ==> m == Boosted(LastWith(exact, Id(m)).value)) &&
              (Id(m) !in Numbers(exact) ==> m == Plain(FirstWith(word, Id(m)).value))
  {
    ExactPassFacts(exact);
    WordPassFacts(ExactPass([], exact), word);
  }
}
