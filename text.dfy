/** Character classes and the string methods of JavaScript and Python that the
    modelled code relies on.

    Letter case is modelled for the Latin letters A-Z and the basic Cyrillic
    block (U+0400-U+045F), the scripts of the correspondence; every other
    character is treated as uncased. */
module Text {

  // ---- letter case ----

  predicate IsUpper(c: char) {
    ('A' <= c <= 'Z') || ('\U{400}' <= c <= '\U{42F}')
  }

  predicate IsLower(c: char) {
    ('a' <= c <= 'z') || ('\U{430}' <= c <= '\U{45F}')
  }

  predicate IsCased(c: char) { IsUpper(c) || IsLower(c) }

  function ToLower(c: char): (r: char)
    ensures IsUpper(c) ==> IsLower(r)
    ensures !IsUpper(c) ==> r == c
  {
    if 'A' <= c <= 'Z' then (c as int + 32) as char
    else if '\U{400}' <= c <= '\U{40F}' then (c as int + 0x50) as char
    else if '\U{410}' <= c <= '\U{42F}' then (c as int + 0x20) as char
    else c
  }

  function ToUpper(c: char): (r: char)
    ensures IsLower(c) ==> IsUpper(r)
    ensures !IsLower(c) ==> r == c
  {
    if 'a' <= c <= 'z' then (c as int - 32) as char
    else if '\U{430}' <= c <= '\U{44F}' then (c as int - 0x20) as char
    else if '\U{450}' <= c <= '\U{45F}' then (c as int - 0x50) as char
    else c
  }

  /** `s.lower()` / `s.toLowerCase()`. */
  function Lower(s: string): (r: string)
    ensures |r| == |s|
    ensures forall i :: 0 <= i < |s| ==> r[i] == ToLower(s[i])
  {
    if s == [] then [] else [ToLower(s[0])] + Lower(s[1..])
  }

  /** `s.upper()`. */
  function Upper(s: string): (r: string)
    ensures |r| == |s|
    ensures forall i :: 0 <= i < |s| ==> r[i] == ToUpper(s[i])
  {
    if s == [] then [] else [ToUpper(s[0])] + Upper(s[1..])
  }

  /** A string is unchanged by lowering iff it has no upper-case letter. */
  lemma LowerFixed(s: string)
    ensures Lower(s) == s <==> forall i :: 0 <= i < |s| ==> !IsUpper(s[i])
  {
    if Lower(s) == s {
      forall i | 0 <= i < |s| ensures !IsUpper(s[i]) {
        assert Lower(s)[i] == ToLower(s[i]);
      }
    }
  }

  /** Python's `str.isupper()`: some cased character and no lower-case one. */
  predicate AllUpper(s: string) {
    (exists i :: 0 <= i < |s| && IsCased(s[i])) &&
    (forall i :: 0 <= i < |s| ==> !IsLower(s[i]))
  }

  /** Python's `str.istitle()`, scanned left to right with the flag
      "previous character is cased": an upper-case letter must follow an
      uncased character, a lower-case letter a cased one, and at least one
      cased character must occur. */
  predicate IsTitle(s: string) {
    TitleScan(s, false, false)
  }

  predicate TitleScan(s: string, previousCased: bool, sawCased: bool) {
    if s == [] then sawCased
    else if IsUpper(s[0]) then !previousCased && TitleScan(s[1..], true, true)
    else if IsLower(s[0]) then previousCased && TitleScan(s[1..], true, true)
    else TitleScan(s[1..], false, sawCased)
  }

  /** Python's `str.title()`: each character is upper-cased when the character
      before it (in the original) is uncased, and lower-cased otherwise. */
  function Title(s: string): (r: string)
    ensures |r| == |s|
  {
    TitleFrom(s, false)
  }

  function TitleFrom(s: string, previousCased: bool): (r: string)
    ensures |r| == |s|
    ensures forall i :: 0 <= i < |s| ==>
      r[i] == if (if i == 0 then previousCased else IsCased(s[i - 1])) then ToLower(s[i]) else ToUpper(s[i])
  {
    if s == [] then []
    else
      var rest := TitleFrom(s[1..], IsCased(s[0]));
      [if previousCased then ToLower(s[0]) else ToUpper(s[0])] + rest
  }

  /** Python's `str.capitalize()`: first character upper, all others lower. */
  function Capitalize(s: string): (r: string)
    ensures |r| == |s|
    ensures s != [] ==> r[0] == ToUpper(s[0]) && r[1..] == Lower(s[1..])
  {
    if s == [] then [] else [ToUpper(s[0])] + Lower(s[1..])
  }

  // ---- splitting and joining on one separator character ----

  /** Python's `s.split(sep)` for a one-character separator: always at least
      one part, and no part contains the separator. */
  function Split(s: string, sep: char): (parts: seq<string>)
    ensures |parts| >= 1
    ensures forall k :: 0 <= k < |parts| ==> sep !in parts[k]
  {
    if s == [] then [""]
    else
      var rest := Split(s[1..], sep);
      if s[0] == sep then [""] + rest
      else [[s[0]] + rest[0]] + rest[1..]
  }

  /** `sep.join(parts)`. */
  function Join(parts: seq<string>, sep: char): string {
    if parts == [] then ""
    else if |parts| == 1 then parts[0]
    else parts[0] + [sep] + Join(parts[1..], sep)
  }

  /** Splitting on a character and joining on it again gives back the string. */
  lemma {:induction false} JoinSplit(s: string, sep: char)
    ensures Join(Split(s, sep), sep) == s
  {
    if s != [] {
      JoinSplit(s[1..], sep);
      var rest := Split(s[1..], sep);
      if s[0] == sep {
        assert Split(s, sep) == [""] + rest;
        assert Join([""] + rest, sep) == "" + [sep] + Join(rest, sep);
      } else {
        var parts := Split(s, sep);
        assert parts == [[s[0]] + rest[0]] + rest[1..];
        if |rest| == 1 {
          assert parts == [[s[0]] + rest[0]];
        } else {
          assert parts[1..] == rest[1..];
          assert Join(rest, sep) == rest[0] + [sep] + Join(rest[1..], sep);
        }
      }
    }
  }

  // ---- whitespace ----

  /** Python's `str.isspace()` for one character (the characters `str.strip()`
      removes). */
  predicate IsPySpace(c: char) {
    c == ' ' || ('\t' <= c <= '\r') || ('\U{1C}' <= c <= '\U{1F}') || c == '\U{85}' ||
    c == '\U{A0}' || c == '\U{1680}' || ('\U{2000}' <= c <= '\U{200A}') ||
    c == '\U{2028}' || c == '\U{2029}' || c == '\U{202F}' || c == '\U{205F}' || c == '\U{3000}'
  }

  /** JavaScript's `\s` class, which is also what `String.prototype.trim` removes. */
  predicate IsJsSpace(c: char) {
    c == ' ' || ('\t' <= c <= '\r') || c == '\U{A0}' || c == '\U{1680}' ||
    ('\U{2000}' <= c <= '\U{200A}') || c == '\U{2028}' || c == '\U{2029}' ||
    c == '\U{202F}' || c == '\U{205F}' || c == '\U{3000}' || c == '\U{FEFF}'
  }

  /** JavaScript's line terminators, which `.` in a regular expression does not match. */
  predicate IsLineTerminator(c: char) {
    c == '\n' || c == '\r' || c == '\U{2028}' || c == '\U{2029}'
  }

  predicate IsSpaceIn(c: char, py: bool) {
    if py then IsPySpace(c) else IsJsSpace(c)
  }

  /** The first index at or after `lo` that holds no whitespace, or `|s|`. */
  function SkipSpace(s: string, lo: nat, py: bool): (k: nat)
    requires lo <= |s|
    ensures lo <= k <= |s|
    ensures forall i :: lo <= i < k ==> IsSpaceIn(s[i], py)
    ensures k < |s| ==> !IsSpaceIn(s[k], py)
    decreases |s| - lo
  {
    if lo == |s| || !IsSpaceIn(s[lo], py) then lo else SkipSpace(s, lo + 1, py)
  }

  /** The end of `s[lo..hi]` without its trailing whitespace. */
  function DropSpace(s: string, lo: nat, hi: nat, py: bool): (k: nat)
    requires lo <= hi <= |s|
    ensures lo <= k <= hi
    ensures forall i :: k <= i < hi ==> IsSpaceIn(s[i], py)
    ensures lo < k ==> !IsSpaceIn(s[k - 1], py)
    decreases hi
  {
    if hi == lo || !IsSpaceIn(s[hi - 1], py) then hi else DropSpace(s, lo, hi - 1, py)
  }

  /** `s.strip()` in Python (`py`) or `s.trim()` in JavaScript: the string
      without its leading and trailing whitespace. The result is the slice
      of `s` after its leading whitespace and before a trailing run of
      whitespace, and it is empty or starts and ends with a non-space
      character. */
  function Trim(s: string, py: bool): (r: string)
    ensures SkipSpace(s, 0, py) + |r| <= |s|
    ensures r == s[SkipSpace(s, 0, py)..SkipSpace(s, 0, py) + |r|]
    ensures forall i :: SkipSpace(s, 0, py) + |r| <= i < |s| ==> IsSpaceIn(s[i], py)
    ensures r != [] ==> !IsSpaceIn(r[0], py) && !IsSpaceIn(r[|r| - 1], py)
  {
    var a := SkipSpace(s, 0, py);
    var b := DropSpace(s, a, |s|, py);
    assert a < b ==> s[a..b][0] == s[a] && s[a..b][b - a - 1] == s[b - 1];
    s[a..b]
  }

  // ---- substrings ----

  /** `pat` occurs in `s` starting at index `k`. */
  predicate OccursAt(s: string, pat: string, k: nat) {
    k + |pat| <= |s| && s[k..k + |pat|] == pat
  }

  /** `s.includes(pat)` in JavaScript, `pat in s` in Python. */
  predicate Contains(s: string, pat: string) {
    exists k: nat :: k <= |s| && OccursAt(s, pat, k)
  }

  // ---- decimal numbers ----

  /** Python's `c.isdigit()` for ASCII digits. */
  predicate IsDigits(c: string) {
    c != [] && forall i :: 0 <= i < |c| ==> '0' <= c[i] <= '9'
  }

  /** `int(c)` for a string of decimal digits. */
  function DigitValue(c: string): nat {
    if c == [] then 0 else 10 * DigitValue(c[..|c| - 1]) + ((c[|c| - 1] as int - '0' as int) % 10)
  }

  /** Python's `str(n)` for a natural number: its decimal digits, no
      leading zero. */
  function Decimal(n: nat): (r: string)
    ensures IsDigits(r)
    ensures |r| > 1 ==> r[0] != '0'
  {
    var last := ['0' + (n % 10) as char];
    if n < 10 then last else Decimal(n / 10) + last
  }

  /** Python's `str(i)` for an integer. */
  function IntString(i: int): (r: string)
    ensures r != []
    ensures i < 0 <==> r[0] == '-'
  {
    if i < 0 then "-" + Decimal(-i) else Decimal(i)
  }

  /** `int(str(n)) == n`. */
  lemma {:induction false} DecimalValue(n: nat)
    ensures DigitValue(Decimal(n)) == n
  {
    var r := Decimal(n);
    if n >= 10 {
      DecimalValue(n / 10);
      assert r[..|r| - 1] == Decimal(n / 10);
    }
  }
}
