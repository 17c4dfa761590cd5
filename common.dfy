/** Small shared vocabulary: an Option type and facts about sequences
    (subsequences, duplicate-freedom, last occurrence) used by several modules. */
module Common {

  datatype Option<T> = None | Some(value: T)

  /** `a` is obtained from `b` by deleting elements, keeping the order of
      the rest: the last element of `a` either matches the last of `b` or
      `b`'s last element was deleted. */
  predicate IsSubseq<T(==)>(a: seq<T>, b: seq<T>)
    decreases |b|
  {
    |a| == 0 ||
    (|b| > 0 &&
     ((a[|a| - 1] == b[|b| - 1] && IsSubseq(a[..|a| - 1], b[..|b| - 1])) ||
      IsSubseq(a, b[..|b| - 1])))
  }

  predicate NoDup<T(==)>(s: seq<T>) {
    forall i, j :: 0 <= i < j < |s| ==> s[i] != s[j]
  }

  /** Keeps the elements of `s` that satisfy `p`, in order. */
  function Filter<T>(s: seq<T>, p: T -> bool): (r: seq<T>)
    ensures |r| <= |s|
    ensures forall k :: 0 <= k < |r| ==> p(r[k]) && r[k] in s
    decreases |s|
  {
    if s == [] then []
    else Filter(s[..|s| - 1], p) + (if p(s[|s| - 1]) then [s[|s| - 1]] else [])
  }

  lemma {:induction false} FilterMembership<T>(s: seq<T>, p: T -> bool, x: T)
    ensures x in Filter(s, p) <==> x in s && p(x)
    decreases |s|
  {
    if s != [] {
      var init := s[..|s| - 1];
      FilterMembership(init, p, x);
      assert s == init + [s[|s| - 1]];
    }
  }

  /** A filter every element passes keeps the whole sequence. */
  lemma {:induction false} FilterKeepsAll<T>(s: seq<T>, p: T -> bool)
    requires forall k :: 0 <= k < |s| ==> p(s[k])
    ensures Filter(s, p) == s
    decreases |s|
  {
    if s != [] {
      FilterKeepsAll(s[..|s| - 1], p);
      assert s == s[..|s| - 1] + [s[|s| - 1]];
    }
  }

  lemma {:induction false} FilterIsSubseq<T>(s: seq<T>, p: T -> bool)
    ensures IsSubseq(Filter(s, p), s)
    decreases |s|
  {
    if s != [] {
      var init := s[..|s| - 1];
      FilterIsSubseq(init, p);
      if p(s[|s| - 1]) {
        assert Filter(s, p)[..|Filter(s, p)| - 1] == Filter(init, p);
      } else {
        assert Filter(s, p) == Filter(init, p);
      }
    }
  }

  lemma {:induction false} FilterAppend<T>(a: seq<T>, b: seq<T>, p: T -> bool)
    ensures Filter(a + b, p) == Filter(a, p) + Filter(b, p)
    decreases |b|
  {
    if b == [] {
      assert a + b == a;
    } else {
      var init, last := b[..|b| - 1], b[|b| - 1];
      FilterAppend(a, init, p);
      assert (a + b)[..|a + b| - 1] == a + init && (a + b)[|a + b| - 1] == last;
      var tail := if p(last) then [last] else [];
      assert Filter(b, p) == Filter(init, p) + tail;
      assert Filter(a + b, p) == Filter(a + init, p) + tail;
    }
  }

  /** The filter of a non-empty sequence: that of all but the last element,
      then that of the last. */
  lemma FilterSnoc<T>(s: seq<T>, p: T -> bool)
    requires s != []
    ensures Filter(s, p) == Filter(s[..|s| - 1], p) + Filter([s[|s| - 1]], p)
  {
    FilterAppend(s[..|s| - 1], [s[|s| - 1]], p);
    assert s[..|s| - 1] + [s[|s| - 1]] == s;
  }

  /** Index of the last occurrence of `x` in `s`, or -1. */
  function LastIndex<T(==)>(s: seq<T>, x: T): (r: int)
    ensures -1 <= r < |s|
    ensures r >= 0 ==> s[r] == x && forall j :: r < j < |s| ==> s[j] != x
    ensures r == -1 <==> x !in s
    decreases |s|
  {
    if s == [] then -1
    else if s[|s| - 1] == x then |s| - 1
    else LastIndex(s[..|s| - 1], x)
  }

  /** Index of the first occurrence of `x` in `s`, or -1. */
  function FirstIndex<T(==)>(s: seq<T>, x: T): (r: int)
    ensures -1 <= r < |s|
    ensures r >= 0 ==> s[r] == x && forall j :: 0 <= j < r ==> s[j] != x
    ensures r == -1 <==> x !in s
    decreases |s|
  {
    if s == [] then -1
    else if s[0] == x then 0
    else var k := FirstIndex(s[1..], x); if k == -1 then -1 else k + 1
  }
}
