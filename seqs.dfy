/** Order-preserving selection and mapping over sequences (Ruby's `Array#select` and `Array#map`), and the leftmost present entry of a sequence of options. */
module Seqs {
  import opened Wrappers

  /** The elements of `s` that satisfy `p`, in their original order. */
  function Filter<T(==)>(s: seq<T>, p: T -> bool): (r: seq<T>)
    ensures |r| <= |s|
    decreases |s|
  {
    if s == [] then []
    else (if p(s[0]) then [s[0]] else []) + Filter(s[1..], p)
  }

  /** An element is selected exactly when it occurs in the input and passes the test. */
  lemma {:induction false} FilterMembership<T>(s: seq<T>, p: T -> bool, x: T)
    ensures x in Filter(s, p) <==> x in s && p(x)
    decreases |s|
  {
    if s != [] {
      FilterMembership(s[1..], p, x);
      assert s == [s[0]] + s[1..];
    }
  }

  /** The conjunction of two tests. */
  function Both<T>(p: T -> bool, q: T -> bool): T -> bool
  {
    x => p(x) && q(x)
  }

  /**
   * `a` can be obtained from `b` by deleting elements: every element of `a`
   * is matched, in order, by a distinct element of `b`.
   */
  predicate IsSubseq<T(==)>(a: seq<T>, b: seq<T>)
    decreases |b|
  {
    if a == [] then true
    else if b == [] then false
    else (a[0] == b[0] && IsSubseq(a[1..], b[1..])) || IsSubseq(a, b[1..])
  }

  /** A selection only deletes: nothing is added, reordered or rewritten. */
  lemma {:induction false} FilterIsSubseq<T>(s: seq<T>, p: T -> bool)
    ensures IsSubseq(Filter(s, p), s)
    decreases |s|
  {
    if s != [] {
      FilterIsSubseq(s[1..], p);
      var r := Filter(s, p);
      if p(s[0]) {
        assert r[0] == s[0] && r[1..] == Filter(s[1..], p);
      } else {
        assert r == Filter(s[1..], p);
      }
    }
  }

  /** A selection keeps every occurrence of an accepted element and none of a rejected one. */
  lemma {:induction false} FilterCount<T>(s: seq<T>, p: T -> bool, x: T)
    ensures multiset(Filter(s, p))[x] == if p(x) then multiset(s)[x] else 0
    decreases |s|
  {
    if s != [] {
      FilterCount(s[1..], p, x);
      assert s == [s[0]] + s[1..];
      assert multiset(s) == multiset([s[0]]) + multiset(s[1..]);
    }
  }

  /** Selecting from a sequence all of whose elements pass leaves it unchanged. */
  lemma {:induction false} FilterAllPass<T>(s: seq<T>, p: T -> bool)
    requires forall i :: 0 <= i < |s| ==> p(s[i])
    ensures Filter(s, p) == s
    decreases |s|
  {
    if s != [] {
      FilterAllPass(s[1..], p);
      assert s == [s[0]] + s[1..];
    }
  }

  /** Two selections in a row are one selection by the conjunction of their tests. */
  lemma {:induction false} FilterFilter<T>(s: seq<T>, p: T -> bool, q: T -> bool)
    ensures Filter(Filter(s, p), q) == Filter(s, Both(p, q))
    decreases |s|
  {
    if s != [] {
      FilterFilter(s[1..], p, q);
      if p(s[0]) {
        assert Filter(s, p) == [s[0]] + Filter(s[1..], p);
        assert Filter(s, p)[1..] == Filter(s[1..], p);
      } else {
        assert Filter(s, p) == Filter(s[1..], p);
      }
    }
  }

  /** Ruby's `map`: `f` applied to each element, in order. */
  function Map<A, B>(s: seq<A>, f: A -> B): (r: seq<B>)
    ensures |r| == |s|
    decreases |s|
  {
    if s == [] then [] else Map(s[..|s| - 1], f) + [f(s[|s| - 1])]
  }

  lemma {:induction false} MapEntrywise<A, B>(s: seq<A>, f: A -> B)
    ensures forall i :: 0 <= i < |s| ==> Map(s, f)[i] == f(s[i])
    decreases |s|
  {
    if s != [] {
      var front := s[..|s| - 1];
      MapEntrywise(front, f);
      assert forall i :: 0 <= i < |front| ==> Map(s, f)[i] == Map(front, f)[i] && front[i] == s[i];
    }
  }

  /** A sequence that agrees with `f` entry by entry is `Map` of `f`. */
  lemma {:induction false} MapOfEntrywise<A, B>(s: seq<A>, f: A -> B, r: seq<B>)
    requires |r| == |s|
    requires forall i :: 0 <= i < |s| ==> r[i] == f(s[i])
    ensures r == Map(s, f)
  {
    MapEntrywise(s, f);
  }

  /** The first present entry of `ms`, scanning from the left; `None` if every entry is absent. */
  function FirstSome<T>(ms: seq<Option<T>>): (r: Option<T>)
    ensures r.Some? ==> r in ms
    decreases |ms|
  {
    if ms == [] then None else if ms[0].Some? then ms[0] else FirstSome(ms[1..])
  }

  lemma {:induction false} FirstSomeIsLeftmost<T>(ms: seq<Option<T>>)
    ensures FirstSome(ms).None? <==> forall j :: 0 <= j < |ms| ==> ms[j].None?
    ensures FirstSome(ms).Some? ==>
              exists j :: 0 <= j < |ms| && ms[j] == FirstSome(ms) && forall k :: 0 <= k < j ==> ms[k].None?
    decreases |ms|
  {
    if ms != [] && ms[0].None? {
      var rest := ms[1..];
      FirstSomeIsLeftmost(rest);
      assert forall j :: 1 <= j < |ms| ==> ms[j] == rest[j - 1];
      if FirstSome(rest).Some? {
        var j :| 0 <= j < |rest| && rest[j] == FirstSome(rest) && forall k :: 0 <= k < j ==> rest[k].None?;
        assert ms[j + 1] == rest[j];
        assert forall k :: 0 <= k < j + 1 ==> ms[k].None?;
      }
    }
  }
}
