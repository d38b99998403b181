/** The array built-ins the storefront relies on (`filter`, `find`,
    `[...new Set(xs)]`), written as recursive functions over sequences, with the
    facts about them that the catalog and the cart use. */
module Lists {
  import opened Wrappers

  /** `r` embeds into `t` in order: `r` can be obtained from `t` by deleting elements. */
  ghost predicate IsSubsequence<T>(r: seq<T>, t: seq<T>)
    decreases |t|
  {
    if r == [] then true
    else if t == [] then false
    else (r[0] == t[0] && IsSubsequence(r[1..], t[1..])) || IsSubsequence(r, t[1..])
  }

  /** No value occurs twice. */
  ghost predicate NoDuplicates<T>(s: seq<T>)
  {
    forall i, j :: 0 <= i < j < |s| ==> s[i] != s[j]
  }

  /** `Array.prototype.filter`: the elements of `s` that pass `keep`, in their order. */
  function Filter<T>(s: seq<T>, keep: T -> bool): (r: seq<T>)
    ensures |r| <= |s|
    ensures forall x :: x in r ==> x in s && keep(x)
  {
    if s == [] then []
    else (if keep(s[0]) then [s[0]] else []) + Filter(s[1..], keep)
  }

  /** An element is kept exactly when it occurs in `s` and passes the test. */
  lemma {:induction false} FilterMembers<T>(s: seq<T>, keep: T -> bool, x: T)
    ensures x in Filter(s, keep) <==> x in s && keep(x)
  {
    if s != [] {
      FilterMembers(s[1..], keep, x);
      assert s == [s[0]] + s[1..];
    }
  }

  /** Every occurrence of a kept value survives, and no occurrence of a dropped one:
      with `FilterSubsequence` this pins the result down to the kept elements in order. */
  lemma {:induction false} FilterCount<T>(s: seq<T>, keep: T -> bool, x: T)
    ensures multiset(Filter(s, keep))[x] == if keep(x) then multiset(s)[x] else 0
  {
    if s != [] {
      FilterCount(s[1..], keep, x);
      assert s == [s[0]] + s[1..];
      assert multiset(s) == multiset{s[0]} + multiset(s[1..]);
    }
  }

  /** The filtered sequence is an in-order subsequence of the input. */
  lemma {:induction false} FilterSubsequence<T>(s: seq<T>, keep: T -> bool)
    ensures IsSubsequence(Filter(s, keep), s)
  {
    if s != [] {
      FilterSubsequence(s[1..], keep);
      var r := Filter(s, keep);
      if keep(s[0]) {
        assert r[0] == s[0] && r[1..] == Filter(s[1..], keep);
      } else {
        assert r == Filter(s[1..], keep);
      }
    }
  }

  /** A filter that every element passes returns its input unchanged. */
  lemma {:induction false} FilterKeepsAll<T>(s: seq<T>, keep: T -> bool)
    requires forall i :: 0 <= i < |s| ==> keep(s[i])
    ensures Filter(s, keep) == s
  {
    if s != [] {
      FilterKeepsAll(s[1..], keep);
      assert s == [s[0]] + s[1..];
    }
  }

  /** The position of the first element that passes `test`, where the element
      `find` returns sits. */
  function FindIndex<T>(s: seq<T>, test: T -> bool): (r: Option<nat>)
    ensures r.Some? ==> r.value < |s| && test(s[r.value])
    ensures r.Some? ==> forall j :: 0 <= j < r.value ==> !test(s[j])
    ensures r.None? ==> forall j :: 0 <= j < |s| ==> !test(s[j])
  {
    if s == [] then None
    else if test(s[0]) then Some(0)
    else match FindIndex(s[1..], test)
      case None => None
      case Some(k) => Some(k + 1)
  }

  /** `Array.prototype.find`: the first element that passes `test`, if any. */
  function Find<T>(s: seq<T>, test: T -> bool): (r: Option<T>)
    ensures r.Some? ==> r.value in s && test(r.value)
    ensures r.Some? ==> exists k :: 0 <= k < |s| && s[k] == r.value && forall j :: 0 <= j < k ==> !test(s[j])
    ensures r.None? <==> forall j :: 0 <= j < |s| ==> !test(s[j])
  {
    match FindIndex(s, test)
    case None => None
    case Some(k) => Some(s[k])
  }

  /** `[...new Set(s)]`: each value of `s` exactly once. */
  function Distinct<T(==)>(s: seq<T>): (r: seq<T>)
    ensures forall i :: 0 <= i < |r| ==> r[i] in s
    ensures forall i :: 0 <= i < |s| ==> s[i] in r
    ensures NoDuplicates(r)
  {
    if s == [] then []
    else
      var r := Distinct(s[..|s| - 1]);
      assert forall i :: 0 <= i < |s| - 1 ==> s[i] == s[..|s| - 1][i];
      if s[|s| - 1] in r then r else r + [s[|s| - 1]]
  }
}
