/** The array operations the reducers are built from (`filter`, `map`), as functions on sequences. */
module Seqs {

  /** `a` is an order-preserving subsequence of `b`: `a` is `b` with some elements dropped. */
  ghost predicate IsSubsequence<T>(a: seq<T>, b: seq<T>)
    decreases |b|
  {
    a == [] ||
    (b != [] && ((a[0] == b[0] && IsSubsequence(a[1..], b[1..])) || IsSubsequence(a, b[1..])))
  }

  lemma {:induction false} SubsequenceTransitive<T>(a: seq<T>, b: seq<T>, c: seq<T>)
    requires IsSubsequence(a, b) && IsSubsequence(b, c)
    ensures IsSubsequence(a, c)
    decreases |c|
  {
    if a != [] {
      assert b != [] && c != [];
      if IsSubsequence(b, c[1..]) {
        SubsequenceTransitive(a, b, c[1..]);
      } else if a[0] == b[0] && IsSubsequence(a[1..], b[1..]) {
        SubsequenceTransitive(a[1..], b[1..], c[1..]);
      } else {
        SubsequenceTransitive(a, b[1..], c[1..]);
      }
    }
  }

  lemma {:induction false} SubsequenceElements<T>(a: seq<T>, b: seq<T>)
    requires IsSubsequence(a, b)
    ensures forall x :: x in a ==> x in b
    decreases |b|
  {
    if a != [] {
      if a[0] == b[0] && IsSubsequence(a[1..], b[1..]) {
        SubsequenceElements(a[1..], b[1..]);
        assert forall x :: x in a ==> x == a[0] || x in a[1..];
      } else {
        SubsequenceElements(a, b[1..]);
      }
    }
  }

  /** `s.filter(p)`: every occurrence in `s` of an element that satisfies `p`, in the original order. */
  function Filter<T(!new)>(p: T -> bool, s: seq<T>): (r: seq<T>)
    ensures IsSubsequence(r, s)
    ensures forall x :: multiset(r)[x] == if p(x) then multiset(s)[x] else 0
    ensures forall x :: x in r ==> x in s && p(x)
    ensures forall x :: x in s && p(x) ==> x in r
    ensures (forall x :: x in s ==> p(x)) ==> r == s
    ensures |r| <= |s|
    decreases |s|
  {
    if s == [] then []
    else
      var rest := Filter(p, s[1..]);
      var r := if p(s[0]) then [s[0]] + rest else rest;
      FilterStep(p, s, rest, r);
      CountsGiveMembers(p, s, r);
      r
  }

  /** One step of `Filter`: keeping or dropping the head extends what holds of the tail. */
  lemma FilterStep<T(!new)>(p: T -> bool, s: seq<T>, rest: seq<T>, r: seq<T>)
    requires s != [] && IsSubsequence(rest, s[1..])
    requires forall x :: multiset(rest)[x] == if p(x) then multiset(s[1..])[x] else 0
    requires (forall x :: x in s[1..] ==> p(x)) ==> rest == s[1..]
    requires |rest| <= |s| - 1
    requires r == if p(s[0]) then [s[0]] + rest else rest
    ensures IsSubsequence(r, s) && |r| <= |s|
    ensures forall x :: multiset(r)[x] == if p(x) then multiset(s)[x] else 0
    ensures (forall x :: x in s ==> p(x)) ==> r == s
  {
    assert s == [s[0]] + s[1..];
    if p(s[0]) {
      assert r[0] == s[0] && r[1..] == rest;
    }
    assert multiset(r) == (if p(s[0]) then multiset{s[0]} else multiset{}) + multiset(rest);
  }

  /** Occurrence counts as `Filter` keeps them fix which elements it keeps. */
  lemma CountsGiveMembers<T(!new)>(p: T -> bool, s: seq<T>, r: seq<T>)
    requires forall x :: multiset(r)[x] == if p(x) then multiset(s)[x] else 0
    ensures forall x :: x in r ==> x in s && p(x)
    ensures forall x :: x in s && p(x) ==> x in r
  {
    forall x ensures x in r <==> multiset(r)[x] > 0 {
    }
    forall x ensures x in s <==> multiset(s)[x] > 0 {
    }
  }

  /** Filtering by `p` and then by `q` is filtering once by any `pq` that is their conjunction. */
  lemma {:induction false} FilterFuse<T(!new)>(p: T -> bool, q: T -> bool, pq: T -> bool, s: seq<T>)
    requires forall x :: pq(x) == (p(x) && q(x))
    ensures Filter(q, Filter(p, s)) == Filter(pq, s)
    decreases |s|
  {
    if s != [] {
      FilterFuse(p, q, pq, s[1..]);
      var rest := Filter(p, s[1..]);
      if p(s[0]) {
        assert ([s[0]] + rest)[1..] == rest;
      }
    }
  }

  /** Two tests that agree on every element of `s` keep the same elements of `s`. */
  lemma {:induction false} FilterCongruent<T(!new)>(p: T -> bool, q: T -> bool, s: seq<T>)
    requires forall x :: x in s ==> p(x) == q(x)
    ensures Filter(p, s) == Filter(q, s)
    decreases |s|
  {
    if s != [] {
      assert forall x :: x in s[1..] ==> x in s;
      FilterCongruent(p, q, s[1..]);
    }
  }

  /** The elements of `s` last to first. */
  function Reversed<T>(s: seq<T>): (r: seq<T>)
    ensures |r| == |s| && forall i :: 0 <= i < |s| ==> r[i] == s[|s| - 1 - i]
  {
    if s == [] then [] else Reversed(s[1..]) + [s[0]]
  }

  /** `s.map(x => matches(x) ? f(x) : x)`: rewrite the matching elements in place. */
  function UpdateWhere<T>(s: seq<T>, matches: T -> bool, f: T -> T): (r: seq<T>)
    ensures |r| == |s|
    ensures forall i :: 0 <= i < |s| ==> r[i] == if matches(s[i]) then f(s[i]) else s[i]
    decreases |s|
  {
    if s == [] then []
    else [if matches(s[0]) then f(s[0]) else s[0]] + UpdateWhere(s[1..], matches, f)
  }

  /** Rewriting twice with a self-inverse `f` that keeps elements matching restores the sequence. */
  lemma UpdateWhereTwice<T>(s: seq<T>, matches: T -> bool, f: T -> T)
    requires forall x :: matches(x) ==> matches(f(x)) && f(f(x)) == x
    ensures UpdateWhere(UpdateWhere(s, matches, f), matches, f) == s
  {
    var once := UpdateWhere(s, matches, f);
    var twice := UpdateWhere(once, matches, f);
    assert forall i :: 0 <= i < |s| ==> twice[i] == s[i] by {
      forall i | 0 <= i < |s| ensures twice[i] == s[i] {
        if matches(s[i]) { assert once[i] == f(s[i]); }
      }
    }
  }
}
