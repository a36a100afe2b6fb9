/** Order-preserving filtering of sequences, the operation behind both the
    expiry sweep and the delete-by-id of the park-point store. */
module Seqs {

  /** `sub` is obtained from `s` by deleting some of its elements; the ones
      kept stay in their original relative order. */
  ghost predicate IsSubsequence<T>(sub: seq<T>, s: seq<T>)
    decreases |s|
  {
    if sub == [] then true
    else if s == [] then false
    else (sub[0] == s[0] && IsSubsequence(sub[1..], s[1..])) || IsSubsequence(sub, s[1..])
  }

  /** The elements of `s` satisfying `keep`, in order (JavaScript's
      `Array.prototype.filter`). */
  function Filter<T(!new)>(keep: T -> bool, s: seq<T>): (r: seq<T>)
    ensures |r| <= |s|
    ensures forall x :: x in r <==> x in s && keep(x)
    decreases |s|
  {
    if s == [] then [] else (if keep(s[0]) then [s[0]] else []) + Filter(keep, s[1..])
  }

  /** Each element the filter keeps occurs as often as in the input; the
      others do not occur at all. */
  lemma {:induction false} FilterMultiplicity<T(!new)>(keep: T -> bool, s: seq<T>)
    ensures forall x :: multiset(Filter(keep, s))[x] == if keep(x) then multiset(s)[x] else 0
    decreases |s|
  {
    if s != [] {
      FilterMultiplicity(keep, s[1..]);
      assert s == [s[0]] + s[1..];
    }
  }

  /** Filtering only deletes: what it keeps is a subsequence of its input. */
  lemma {:induction false} FilterIsSubsequence<T(!new)>(keep: T -> bool, s: seq<T>)
    ensures IsSubsequence(Filter(keep, s), s)
    decreases |s|
  {
    if s != [] {
      FilterIsSubsequence(keep, s[1..]);
      var rest := Filter(keep, s[1..]);
      if keep(s[0]) {
        assert Filter(keep, s) == [s[0]] + rest;
        assert ([s[0]] + rest)[1..] == rest;
      } else {
        assert Filter(keep, s) == rest;
      }
    }
  }

  /** Filtering distributes over concatenation. */
  lemma {:induction false} FilterConcat<T(!new)>(keep: T -> bool, a: seq<T>, b: seq<T>)
    ensures Filter(keep, a + b) == Filter(keep, a) + Filter(keep, b)
    decreases |a|
  {
    if a == [] {
      assert a + b == b;
    } else {
      assert (a + b)[1..] == a[1..] + b;
      FilterConcat(keep, a[1..], b);
    }
  }

  /** A filter that rejects nothing returns its input unchanged. */
  lemma {:induction false} FilterKeepsAll<T(!new)>(keep: T -> bool, s: seq<T>)
    requires forall i :: 0 <= i < |s| ==> keep(s[i])
    ensures Filter(keep, s) == s
    decreases |s|
  {
    if s != [] {
      FilterKeepsAll(keep, s[1..]);
      assert [s[0]] + s[1..] == s;
    }
  }

  /** Filtering by a stronger condition after a weaker one is the same as
      filtering by the stronger one alone. */
  lemma {:induction false} FilterAbsorbs<T(!new)>(outer: T -> bool, inner: T -> bool, s: seq<T>)
    requires forall x :: outer(x) ==> inner(x)
    ensures Filter(outer, Filter(inner, s)) == Filter(outer, s)
    decreases |s|
  {
    if s != [] {
      FilterAbsorbs(outer, inner, s[1..]);
      var t := Filter(inner, s);
      if inner(s[0]) {
        assert t == [s[0]] + Filter(inner, s[1..]);
        assert t[0] == s[0] && t[1..] == Filter(inner, s[1..]);
        assert Filter(outer, t) == (if outer(s[0]) then [s[0]] else []) + Filter(outer, t[1..]);
      } else {
        assert !outer(s[0]);
        assert t == Filter(inner, s[1..]);
        assert Filter(outer, s) == Filter(outer, s[1..]);
      }
    }
  }

  /** Filtering twice by the same condition is filtering once. */
  lemma FilterIdempotent<T(!new)>(keep: T -> bool, s: seq<T>)
    ensures Filter(keep, Filter(keep, s)) == Filter(keep, s)
  {
    FilterAbsorbs(keep, keep, s);
  }

  /** Two filters applied one after the other commute. */
  lemma {:induction false} FilterCommute<T(!new)>(f: T -> bool, g: T -> bool, s: seq<T>)
    ensures Filter(f, Filter(g, s)) == Filter(g, Filter(f, s))
    decreases |s|
  {
    if s != [] {
      FilterCommute(f, g, s[1..]);
      var head := [s[0]];
      assert s == head + s[1..];
      FilterConcat(g, head, s[1..]);
      FilterConcat(f, head, s[1..]);
      FilterConcat(f, Filter(g, head), Filter(g, s[1..]));
      FilterConcat(g, Filter(f, head), Filter(f, s[1..]));
    }
  }
}
