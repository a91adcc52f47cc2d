/** Small shared vocabulary: optional values, counting in sequences,
    dictionary lookups with a default, and de-duplication in first-seen order. */
module Common {

  datatype Option<+T> = None | Some(value: T)

  /** `m[k] || 0` in JavaScript: a missing counter reads as zero. */
  function Get(m: map<string, int>, k: string): int {
    if k in m then m[k] else 0
  }

  /** Number of occurrences of `x` in `s`. */
  function Count<T(==)>(s: seq<T>, x: T): nat {
    if s == [] then 0
    else Count(s[..|s| - 1], x) + (if s[|s| - 1] == x then 1 else 0)
  }

  lemma {:induction false} CountZero<T>(s: seq<T>, x: T)
    ensures Count(s, x) == 0 <==> x !in s
  {
    if s != [] {
      CountZero(s[..|s| - 1], x);
      assert s == s[..|s| - 1] + [s[|s| - 1]];
    }
  }

  lemma CountSnoc<T>(s: seq<T>, y: T, x: T)
    ensures Count(s + [y], x) == Count(s, x) + (if y == x then 1 else 0)
  {
    assert (s + [y])[..|s + [y]| - 1] == s;
  }

  predicate NoDup<T(==)>(s: seq<T>) {
    forall i, j :: 0 <= i < j < |s| ==> s[i] != s[j]
  }

  /** `[...new Set(s)]`: the distinct elements of `s`, each at its first position. */
  function Dedup(s: seq<int>): (r: seq<int>)
    ensures NoDup(r)
    ensures forall x :: x in r <==> x in s
  {
    if s == [] then []
    else
      var d := Dedup(s[..|s| - 1]);
      assert forall x :: x in s <==> x in s[..|s| - 1] || x == s[|s| - 1] by {
        assert s == s[..|s| - 1] + [s[|s| - 1]];
      }
      if s[|s| - 1] in d then d else d + [s[|s| - 1]]
  }

  /** Appending an element to an already distinct list de-duplicates to
      the list itself, or the list with the element at its end. */
  lemma DedupAppend(s: seq<int>, x: int)
    requires NoDup(s)
    ensures Dedup(s + [x]) == if x in s then s else s + [x]
  {
    DedupOfDistinct(s);
    assert (s + [x])[..|s + [x]| - 1] == s;
  }

  lemma {:induction false} DedupOfDistinct(s: seq<int>)
    requires NoDup(s)
    ensures Dedup(s) == s
  {
    if s != [] {
      var init := s[..|s| - 1];
      assert NoDup(init);
      DedupOfDistinct(init);
      assert s[|s| - 1] !in init;
      assert init + [s[|s| - 1]] == s;
    }
  }

  /** The index of the first element from `from` on that satisfies `p`. */
  function FirstWhere<T>(s: seq<T>, p: T -> bool, from: nat): (r: Option<nat>)
    requires from <= |s|
    ensures r.Some? ==> from <= r.value < |s|
    decreases |s| - from
  {
    if from == |s| then None
    else if p(s[from]) then Some(from)
    else FirstWhere(s, p, from + 1)
  }

  /** `FirstWhere` finds the first element satisfying `p`, and none exactly
      when no element from `from` on satisfies it. */
  lemma {:induction false} FirstWhereSpec<T>(s: seq<T>, p: T -> bool, from: nat)
    requires from <= |s|
    ensures var r := FirstWhere(s, p, from);
      (r.Some? ==> p(s[r.value]) && forall k :: from <= k < r.value ==> !p(s[k])) &&
      (r.None? ==> forall k :: from <= k < |s| ==> !p(s[k]))
    decreases |s| - from
  {
    if from < |s| && !p(s[from]) {
      FirstWhereSpec(s, p, from + 1);
    }
  }

  function Min(a: int, b: int): int { if a <= b then a else b }
  function Max(a: int, b: int): int { if a >= b then a else b }
}
