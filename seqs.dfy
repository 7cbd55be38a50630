/**
 * The sequence combinators the system uses on its JavaScript arrays:
 * `filter` (order-preserving selection) and `find` (first match).
 */
module Seqs {
  import opened Wrappers

  /** `s.filter(keep)`: the elements satisfying `keep`, in their original order. */
  function Filter<T>(s: seq<T>, keep: T -> bool): (r: seq<T>)
    ensures |r| <= |s|
    ensures forall x :: x in r ==> x in s && keep(x)
    ensures forall x :: x in s ==> multiset(r)[x] == if keep(x) then multiset(s)[x] else 0
  {
    if s == [] then []
    else
      assert s == [s[0]] + s[1..];
      if keep(s[0]) then [s[0]] + Filter(s[1..], keep) else Filter(s[1..], keep)
  }

  /** Filtering distributes over concatenation: this is what "original order" means. */
  lemma {:induction false} FilterAppend<T>(a: seq<T>, b: seq<T>, keep: T -> bool)
    ensures Filter(a + b, keep) == Filter(a, keep) + Filter(b, keep)
  {
    if a == [] {
      assert a + b == b;
    } else {
      assert (a + b)[0] == a[0];
      assert (a + b)[1..] == a[1..] + b;
      FilterAppend(a[1..], b, keep);
    }
  }

  /** A filter that rejects nothing is the identity. */
  lemma {:induction false} FilterKeepsAll<T>(s: seq<T>, keep: T -> bool)
    requires forall x :: x in s ==> keep(x)
    ensures Filter(s, keep) == s
  {
    if s != [] {
      FilterKeepsAll(s[1..], keep);
    }
  }

  /** `rel` holds of every pair of elements taken in sequence order. */
  predicate Pairwise<T>(s: seq<T>, rel: (T, T) -> bool) {
    forall i, j :: 0 <= i < j < |s| ==> rel(s[i], s[j])
  }

  /** Filtering keeps every pairwise relation that held between elements in order. */
  lemma {:induction false} FilterKeepsPairwise<T>(s: seq<T>, keep: T -> bool, rel: (T, T) -> bool)
    requires Pairwise(s, rel)
    ensures Pairwise(Filter(s, keep), rel)
  {
    if s != [] {
      var t := s[1..];
      assert Pairwise(t, rel) by {
        forall i, j | 0 <= i < j < |t| ensures rel(t[i], t[j]) {
          assert t[i] == s[i + 1] && t[j] == s[j + 1];
        }
      }
      FilterKeepsPairwise(t, keep, rel);
      if keep(s[0]) {
        HeadRelatesToFiltered(s[0], t, keep, rel);
        PrependPairwise(s[0], Filter(t, keep), rel);
        assert Filter(s, keep) == [s[0]] + Filter(t, keep);
      } else {
        assert Filter(s, keep) == Filter(t, keep);
      }
    }
  }

  lemma HeadRelatesToFiltered<T>(x: T, t: seq<T>, keep: T -> bool, rel: (T, T) -> bool)
    requires forall j :: 0 <= j < |t| ==> rel(x, t[j])
    ensures forall y :: y in Filter(t, keep) ==> rel(x, y)
  {
    forall y | y in Filter(t, keep) ensures rel(x, y) {
      var k :| 0 <= k < |t| && t[k] == y;
    }
  }

  lemma PrependPairwise<T>(x: T, t: seq<T>, rel: (T, T) -> bool)
    requires forall y :: y in t ==> rel(x, y)
    requires Pairwise(t, rel)
    ensures Pairwise([x] + t, rel)
  {
    var r := [x] + t;
    forall i, j | 0 <= i < j < |r| ensures rel(r[i], r[j]) {
      assert r[j] == t[j - 1];
      if i > 0 {
        assert r[i] == t[i - 1];
      }
    }
  }

  /** The position of the first element satisfying `p`, or None; `Find` returns the element there. */
  function FirstIndex<T>(s: seq<T>, p: T -> bool): (r: Option<nat>)
    ensures r.Some? ==> r.value < |s| && p(s[r.value])
    ensures r.Some? ==> forall j :: 0 <= j < r.value ==> !p(s[j])
    ensures r.None? ==> forall j :: 0 <= j < |s| ==> !p(s[j])
  {
    if s == [] then None
    else if p(s[0]) then Some(0)
    else match FirstIndex(s[1..], p)
      case None => None
      case Some(k) => Some(k + 1)
  }

  /** `s.find(p)`: the first element satisfying `p`, if any. */
  function Find<T>(s: seq<T>, p: T -> bool): (r: Option<T>)
    ensures r.None? <==> forall j :: 0 <= j < |s| ==> !p(s[j])
    ensures r.Some? ==> exists i :: 0 <= i < |s| && s[i] == r.value && p(s[i]) &&
                                   forall j :: 0 <= j < i ==> !p(s[j])
  {
    match FirstIndex(s, p)
    case None => None
    case Some(i) => Some(s[i])
  }
}
