/**
 * Order-preserving views of a list: subsequences, `Array.prototype.filter`, and
 * the distinct elements in first-occurrence order that `Array.from(new Set(xs))` gives.
 */
module Sequences {

  /** s is obtained from t by deleting elements, keeping the order of the rest. */
  predicate IsSubsequence<T(==)>(s: seq<T>, t: seq<T>)
    decreases |t|
  {
    s == [] ||
    (t != [] &&
     ((s[|s| - 1] == t[|t| - 1] && IsSubsequence(s[..|s| - 1], t[..|t| - 1])) ||
      IsSubsequence(s, t[..|t| - 1])))
  }

  lemma SubsequenceAppend<T>(s: seq<T>, t: seq<T>, x: T)
    requires IsSubsequence(s, t)
    ensures IsSubsequence(s, t + [x])
  {
    assert (t + [x])[..|t|] == t;
  }

  lemma SubsequenceSnoc<T>(s: seq<T>, t: seq<T>, x: T)
    requires IsSubsequence(s, t)
    ensures IsSubsequence(s + [x], t + [x])
  {
    assert (s + [x])[..|s|] == s;
    assert (t + [x])[..|t|] == t;
  }

  /**
   * `s.filter(p)`: exactly the elements satisfying p, each as often as in s,
   * in their original order.
   */
  function {:induction false} Filter<T(!new)>(s: seq<T>, p: T -> bool): (r: seq<T>)
    ensures IsSubsequence(r, s)
    ensures forall x :: multiset(r)[x] == if p(x) then multiset(s)[x] else 0
    ensures forall x :: x in r <==> x in s && p(x)
    decreases |s|
  {
    if s == [] then []
    else
      var init, last := s[..|s| - 1], s[|s| - 1];
      var r := Filter(init, p);
      assert s == init + [last];
      if p(last) then
        SubsequenceSnoc(r, init, last);
        r + [last]
      else
        SubsequenceAppend(r, init, last);
        r
  }

  /** When every element passes, filtering changes nothing. */
  lemma {:induction false} FilterAll<T(!new)>(s: seq<T>, p: T -> bool)
    requires forall i :: 0 <= i < |s| ==> p(s[i])
    ensures Filter(s, p) == s
    decreases |s|
  {
    if s != [] {
      FilterAll(s[..|s| - 1], p);
      assert s == s[..|s| - 1] + [s[|s| - 1]];
    }
  }

  /** The index of the first occurrence of x in s. */
  function {:induction false} FirstIndex<T(==)>(s: seq<T>, x: T): (r: nat)
    requires x in s
    ensures r < |s| && s[r] == x
    ensures forall k :: 0 <= k < r ==> s[k] != x
  {
    if s[0] == x then 0 else 1 + FirstIndex(s[1..], x)
  }

  lemma FirstIndexInPrefix<T>(s: seq<T>, x: T, n: nat)
    requires n <= |s| && x in s[..n]
    ensures FirstIndex(s, x) == FirstIndex(s[..n], x)
  {
    var a, b := FirstIndex(s, x), FirstIndex(s[..n], x);
    assert s[b] == s[..n][b] == x;
    assert a <= b;
    assert s[..n][a] == s[a] == x;
  }

  predicate NoDuplicates<T(==)>(s: seq<T>) {
    forall i, j :: 0 <= i < j < |s| ==> s[i] != s[j]
  }

  /**
   * `Array.from(new Set(s))`: every element of s exactly once, ordered by where it
   * first occurs in s.
   */
  function {:induction false} Distinct<T(==,!new)>(s: seq<T>): (r: seq<T>)
    ensures forall x :: x in r <==> x in s
    ensures NoDuplicates(r)
    ensures IsSubsequence(r, s)
    ensures forall i, j :: 0 <= i < j < |r| ==> FirstIndex(s, r[i]) < FirstIndex(s, r[j])
    decreases |s|
  {
    if s == [] then []
    else
      var init, last := s[..|s| - 1], s[|s| - 1];
      var r := Distinct(init);
      assert s == init + [last];
      assert forall x :: x in r ==> FirstIndex(s, x) == FirstIndex(init, x) by {
        forall x | x in r ensures FirstIndex(s, x) == FirstIndex(init, x) {
          FirstIndexInPrefix(s, x, |init|);
        }
      }
      if last in r then
        SubsequenceAppend(r, init, last);
        r
      else
        SubsequenceSnoc(r, init, last);
        assert FirstIndex(s, last) == |init|;
        r + [last]
  }

}
