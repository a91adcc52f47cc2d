/** The parts of the letter search engine (code/ecoSystem/webservice/search_engine.py)
    that are plain index and string work: the text each letter is indexed
    under, the guard on the query, and the excerpt shown around the first
    match.

    The lemmatiser that finds the first match is a parameter: `firstPos` is
    the character position it reports, or `None` when the query has no
    lemma or none of them occurs in the text. */
module SearchEngine {
  import opened Common
  import opened Text

  // ---- JSON values as the engine reads them ----

  /** A scalar JSON value. */
  datatype Atom = Str(s: string) | Int(i: int) | Bool(b: bool) | Null

  /** A field value: a scalar or a list of scalars. */
  datatype Value = One(a: Atom) | List(items: seq<Atom>)

  /** Python's `str` of a scalar. */
  function AtomText(a: Atom): string {
    match a
    case Str(s) => s
    case Int(i) => IntString(i)
    case Bool(b) => if b then "True" else "False"
    case Null => "None"
  }

  function AtomTexts(items: seq<Atom>): (r: seq<string>)
    ensures |r| == |items| && forall k :: 0 <= k < |items| ==> r[k] == AtomText(items[k])
  {
    if items == [] then [] else AtomTexts(items[..|items| - 1]) + [AtomText(items[|items| - 1])]
  }

  /** A value as it enters the combined text: a list becomes its elements'
      texts joined by single spaces. */
  function ValueText(v: Value): string {
    match v
    case One(a) => AtomText(a)
    case List(items) => Join(AtomTexts(items), ' ')
  }

  // ---- the combined text of a letter ----

  /** The fields of a letter that the index covers, in this order. */
  const SearchFields: seq<string> :=
    ["Название", "Дата", "Аннотация", "Текст", "Источник", "Отправитель", "Получатель", "Локация", "Год"]

  /** What one field adds: a space and its text, or nothing when the letter
      does not have it. */
  function Piece(item: map<string, Value>, field: string): string {
    if field in item then " " + ValueText(item[field]) else ""
  }

  /** The pieces of `fields`, concatenated in order. */
  function Combine(item: map<string, Value>, fields: seq<string>): string {
    if fields == [] then "" else Combine(item, fields[..|fields| - 1]) + Piece(item, fields[|fields| - 1])
  }

  function CombinedText(item: map<string, Value>): string {
    Combine(item, SearchFields)
  }

  /** The loop of `_create_new_model` that builds one text per letter, without
      the preprocessing applied to each. */
  method CombinedTexts(data: seq<map<string, Value>>) returns (texts: seq<string>)
    ensures |texts| == |data|
    ensures forall k :: 0 <= k < |data| ==> texts[k] == CombinedText(data[k])
  {
    texts := [];
    for k := 0 to |data|
      invariant |texts| == k
      invariant forall j :: 0 <= j < k ==> texts[j] == CombinedText(data[j])
    {
      var item := data[k];
      var combined := "";
      for f := 0 to |SearchFields|
        invariant combined == Combine(item, SearchFields[..f])
      {
        var field := SearchFields[f];
        if field in item {
          combined := combined + " " + ValueText(item[field]);
        }
        assert SearchFields[..f + 1][..f] == SearchFields[..f];
      }
      assert SearchFields[..|SearchFields|] == SearchFields;
      texts := texts + [combined];
    }
  }

  lemma ContainsAppend(a: string, b: string, pat: string)
    requires Contains(a, pat) || Contains(b, pat)
    ensures Contains(a + b, pat)
  {
    if Contains(a, pat) {
      var k: nat :| k <= |a| && OccursAt(a, pat, k);
      assert (a + b)[k..k + |pat|] == a[k..k + |pat|];
      assert OccursAt(a + b, pat, k);
    } else {
      var k: nat :| k <= |b| && OccursAt(b, pat, k);
      assert (a + b)[|a| + k..|a| + k + |pat|] == b[k..k + |pat|];
      assert OccursAt(a + b, pat, |a| + k);
    }
  }

  lemma ContainsSelf(s: string)
    ensures Contains(s, s)
  {
    assert s[0..|s|] == s;
    assert OccursAt(s, s, 0);
  }

  /** Every covered field a letter has reaches the combined text, preceded
      by a space. */
  lemma {:induction false} CombineHasFields(item: map<string, Value>, fields: seq<string>, field: string)
    requires field in fields && field in item
    ensures Contains(Combine(item, fields), " " + ValueText(item[field]))
  {
    var init, last := fields[..|fields| - 1], fields[|fields| - 1];
    if last == field {
      ContainsSelf(Piece(item, field));
      ContainsAppend(Combine(item, init), Piece(item, last), " " + ValueText(item[field]));
    } else {
      assert fields == init + [last];
      assert field in init;
      CombineHasFields(item, init, field);
      ContainsAppend(Combine(item, init), Piece(item, last), " " + ValueText(item[field]));
    }
  }

  /** A field outside the list, or missing from the letter, plays no part. */
  lemma {:induction false} CombineIgnores(item: map<string, Value>, fields: seq<string>, field: string, v: Value)
    requires field !in fields || field !in item
    ensures Combine(item[field := v], fields) == Combine(item, fields) <==> field !in fields
  {
    if fields != [] {
      var init, last := fields[..|fields| - 1], fields[|fields| - 1];
      assert fields == init + [last];
      CombineIgnores(item, init, field, v);
      if field in fields {
        assert |Combine(item[field := v], fields)| > |Combine(item, fields)| by {
          CombineLonger(item, v, fields, field);
        }
      }
    }
  }

  /** Adding a covered field makes the combined text strictly longer. */
  lemma {:induction false} CombineLonger(item: map<string, Value>, v: Value, fields: seq<string>, field: string)
    requires field !in item && field in fields
    ensures |Combine(item[field := v], fields)| > |Combine(item, fields)|
  {
    var init, last := fields[..|fields| - 1], fields[|fields| - 1];
    var item' := item[field := v];
    assert Combine(item', fields) == Combine(item', init) + Piece(item', last);
    assert Combine(item, fields) == Combine(item, init) + Piece(item, last);
    PieceGrows(item, v, last, field);
    if last != field {
      assert field in init by {
        assert fields == init + [last];
      }
      CombineLonger(item, v, init, field);
    } else {
      CombineGrows(item, v, init, field);
    }
  }

  /** Giving a letter a field it lacked lengthens that field's piece and
      leaves every other piece as it was. */
  lemma PieceGrows(item: map<string, Value>, v: Value, f: string, field: string)
    requires field !in item
    ensures f == field ==> |Piece(item[field := v], f)| > |Piece(item, f)|
    ensures f != field ==> Piece(item[field := v], f) == Piece(item, f)
  {
  }

  /** Giving a letter one more field never shortens its combined text. */
  lemma {:induction false} CombineGrows(item: map<string, Value>, v: Value, fields: seq<string>, field: string)
    requires field !in item
    ensures |Combine(item[field := v], fields)| >= |Combine(item, fields)|
  {
    if fields != [] {
      CombineGrows(item, v, fields[..|fields| - 1], field);
    }
  }

  /** Fields the letter does not have add nothing; in particular a letter
      with none of the covered fields is indexed under the empty text. */
  lemma {:induction false} CombineTail(item: map<string, Value>, fields: seq<string>, k: nat)
    requires k <= |fields|
    requires forall j :: k <= j < |fields| ==> fields[j] !in item
    ensures Combine(item, fields) == Combine(item, fields[..k])
    decreases |fields|
  {
    if |fields| > k {
      var init := fields[..|fields| - 1];
      assert init[..k] == fields[..k];
      CombineTail(item, init, k);
    } else {
      assert fields[..k] == fields;
    }
  }

  // ---- the query guard of `search` ----

  /** `search` goes on only with a non-empty string query, and answers `[]`
      otherwise. */
  function SearchQuery(query: Atom): (r: Option<string>)
    ensures r.Some? <==> query.Str? && query.s != ""
    ensures r.Some? ==> r.value == query.s
  {
    match query
    case Str(s) => if s == "" then None else Some(s)
    case _ => None
  }

  // ---- the excerpt around the first match ----

  /** The default `window_size`. */
  const WindowSize: nat := 150

  /** Python's `s.rfind(c, 0, hi)`: the last position before `hi` holding
      `c`, or -1. */
  function RFindChar(s: string, c: char, hi: nat): (r: int)
    requires hi <= |s|
    ensures -1 <= r < hi
    ensures r >= 0 ==> s[r] == c
    ensures forall i :: r < i < hi ==> s[i] != c
  {
    if hi == 0 then -1 else if s[hi - 1] == c then hi - 1 else RFindChar(s, c, hi - 1)
  }

  /** Python's `s.find(c, lo)`: the first position from `lo` on holding `c`,
      or -1. */
  function FindChar(s: string, c: char, lo: nat): (r: int)
    ensures r == -1 || (lo <= r < |s| && s[r] == c)
    ensures forall i :: lo <= i < |s| && (r == -1 || i < r) ==> s[i] != c
    decreases |s| - lo
  {
    if lo >= |s| then -1 else if s[lo] == c then lo else FindChar(s, c, lo + 1)
  }

  /** The first `w` characters, with an ellipsis when the text goes on. */
  function Head(text: string, w: nat): (r: string)
    ensures |text| <= w ==> r == text
    ensures |text| > w ==> r == text[..w] + "..."
  {
    var excerpt := text[..Min(w, |text|)];
    if |text| > w then excerpt + "..." else excerpt
  }

  /** The window of `w` characters around position `p`, moved left where it
      would pass the end of a text of length `n`. */
  function Centre(n: nat, p: nat, w: nat): (r: (nat, nat))
    ensures r.0 <= r.1 <= n
    ensures r.1 - r.0 == Min(w, n)
    ensures w >= 1 && p < n ==> r.0 <= p < r.1
  {
    var start := Max(0, p - w / 2);
    var end := start + w;
    if end > n then (Max(0, n - w), n) else (start, end)
  }

  /** The start moved back to the beginning of its word: just after the last
      space before it, if there is one. */
  function SnapStart(text: string, s: nat): (r: nat)
    requires s <= |text|
    ensures r <= s
    ensures forall i :: r <= i < s ==> text[i] != ' '
    ensures r == 0 || text[r - 1] == ' ' || forall i :: 0 <= i < s ==> text[i] != ' '
    ensures (forall i :: 0 <= i < s ==> text[i] != ' ') ==> r == s
  {
    if s > 0 then
      var sp := RFindChar(text, ' ', s);
      if sp != -1 then sp + 1 else s
    else s
  }

  /** The end moved forward to the next space at or after it, if there is
      one. */
  function SnapEnd(text: string, e: nat): (r: nat)
    requires e <= |text|
    ensures e <= r <= |text|
    ensures forall i :: e <= i < r ==> text[i] != ' '
    ensures r == |text| || text[r] == ' ' || forall i :: e <= i < |text| ==> text[i] != ' '
    ensures (forall i :: e <= i < |text| ==> text[i] != ' ') ==> r == e
  {
    if e < |text| then
      var ep := FindChar(text, ' ', e);
      if ep != -1 then ep else e
    else e
  }

  /** The window around `p` once both ends are on word boundaries. */
  function Window(text: string, p: nat, w: nat): (r: (nat, nat))
    ensures r.0 <= r.1 <= |text|
  {
    var c := Centre(|text|, p, w);
    (SnapStart(text, c.0), SnapEnd(text, c.1))
  }

  /** The slice between the bounds, with an ellipsis on each side where the
      text goes on. */
  function Framed(text: string, s: nat, e: nat): (r: string)
    requires s <= e <= |text|
    ensures |r| == (if s > 0 then 3 else 0) + (e - s) + (if e < |text| then 3 else 0)
    ensures r[(if s > 0 then 3 else 0)..(if s > 0 then 3 else 0) + (e - s)] == text[s..e]
    ensures s > 0 ==> r[..3] == "..."
    ensures e < |text| ==> r[|r| - 3..] == "..."
  {
    var excerpt := text[s..e];
    var excerpt := if s > 0 then "..." + excerpt else excerpt;
    if e < |text| then excerpt + "..." else excerpt
  }

  /** `get_relevant_excerpt` up to the highlighting of the matched forms. */
  method GetRelevantExcerpt(text: string, query: string, firstPos: Option<nat>, windowSize: nat)
    returns (excerpt: string)
    ensures text == "" || query == "" ==> excerpt == ""
    ensures text != "" && query != "" && firstPos.None? ==> excerpt == Head(text, windowSize)
    ensures text != "" && query != "" && firstPos.Some? ==>
      var (s, e) := Window(text, firstPos.value, windowSize);
      excerpt == Framed(text, s, e)
  {
    if text == "" || query == "" {
      return "";
    }
    if firstPos.None? {
      excerpt := text[..Min(windowSize, |text|)];
      if |text| > windowSize {
        excerpt := excerpt + "...";
      }
      return;
    }
    var start, end := ExcerptBounds(text, firstPos.value, windowSize);
    excerpt := text[start..end];
    if start > 0 {
      excerpt := "..." + excerpt;
    }
    if end < |text| {
      excerpt := excerpt + "...";
    }
  }

  /** The window arithmetic of `get_relevant_excerpt`: centre, clamp, then
      snap both ends to word boundaries. */
  method ExcerptBounds(text: string, p: nat, windowSize: nat) returns (start: nat, end: nat)
    ensures (start, end) == Window(text, p, windowSize)
  {
    var s: int := Max(0, p - windowSize / 2);
    var e: int := s + windowSize;
    if e > |text| {
      e := |text|;
      s := Max(0, e - windowSize);
    }
    if s > 0 {
      var sp := RFindChar(text, ' ', s);
      if sp != -1 {
        s := sp + 1;
      }
    }
    if e < |text| {
      var ep := FindChar(text, ' ', e);
      if ep != -1 {
        e := ep;
      }
    }
    start, end := s, e;
  }

  /** The excerpt shows the match: the matched character sits in the shown
      slice, which is at least as long as the window (or the whole text). */
  lemma ExcerptShowsMatch(text: string, p: nat, w: nat)
    requires p < |text| && w >= 1
    ensures var (s, e) := Window(text, p, w);
      s <= p < e && e - s >= Min(w, |text|) &&
      Framed(text, s, e)[(if s > 0 then 3 else 0) + (p - s)] == text[p]
  {
    var (s, e) := Window(text, p, w);
    var off := if s > 0 then 3 else 0;
    var r := Framed(text, s, e);
    assert r[off..off + (e - s)][p - s] == text[s..e][p - s];
  }

  /** The excerpt ends on word boundaries: it starts at the text's start or
      right after a space unless no space precedes the window, and it stops
      at the text's end or at a space unless no space follows the window. */
  lemma ExcerptOnWordBoundaries(text: string, p: nat, w: nat)
    ensures var c := Centre(|text|, p, w);
      var (s, e) := Window(text, p, w);
      (s == 0 || text[s - 1] == ' ' || forall i :: 0 <= i < c.0 ==> text[i] != ' ') &&
      (e == |text| || text[e] == ' ' || forall i :: c.1 <= i < |text| ==> text[i] != ' ')
  {
    var c := Centre(|text|, p, w);
    var (s, e) := Window(text, p, w);
    if s != 0 && text[s - 1] != ' ' {
      assert s == c.0;
    }
    if e != |text| && text[e] != ' ' {
      assert e == c.1;
      forall i | c.1 <= i < |text| ensures text[i] != ' ' {
        assert FindChar(text, ' ', c.1) == -1;
      }
    }
  }

  /** A text no longer than the window is shown whole, with no ellipsis,
      wherever the match is. */
  lemma ShortTextWhole(text: string, p: nat, w: nat)
    requires |text| <= w
    ensures Head(text, w) == text
    ensures var (s, e) := Window(text, p, w); s == 0 && e == |text| && Framed(text, s, e) == text
  {
    var c := Centre(|text|, p, w);
    assert c == (0, |text|);
  }
}
