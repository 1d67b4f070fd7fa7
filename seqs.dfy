/** Sequence operations the catalog code uses through JavaScript's array
    methods: `filter`, `flatMap`, and the first-occurrence order of a `Set`. */
module Seqs {

  /** `a` can be obtained from `b` by deleting elements (order is kept). */
  predicate IsSubseq<T(==)>(a: seq<T>, b: seq<T>)
    decreases |b|
  {
    if a == [] then true
    else if b == [] then false
    else (a[0] == b[0] && IsSubseq(a[1..], b[1..])) || IsSubseq(a, b[1..])
  }

  /** No element occurs twice. */
  predicate NoDup<T(==)>(s: seq<T>) {
    forall i, j :: 0 <= i < j < |s| ==> s[i] != s[j]
  }

  /** `s.filter(keep)`: the elements of `s` satisfying `keep`, in their order. */
  function Filter<T>(s: seq<T>, keep: T -> bool): (r: seq<T>)
    ensures |r| <= |s|
  {
    if s == [] then []
    else if keep(s[0]) then [s[0]] + Filter(s[1..], keep)
    else Filter(s[1..], keep)
  }

  /** `s.flatMap(f)`: the concatenation of `f(x)` over the elements `x` of `s`. */
  function FlatMap<T, U>(s: seq<T>, f: T -> seq<U>): seq<U> {
    if s == [] then [] else f(s[0]) + FlatMap(s[1..], f)
  }

  /** The elements of a `Set` built from `s`: the distinct elements, each at the
      position of its first occurrence. */
  function Dedup<T(==)>(s: seq<T>): seq<T>
    decreases |s|
  {
    if s == [] then []
    else
      var d := Dedup(s[..|s| - 1]);
      if s[|s| - 1] in d then d else d + [s[|s| - 1]]
  }

  // ---------------------------------------------------------------------
  // Subsequences

  lemma {:induction false} SubseqLength<T>(a: seq<T>, b: seq<T>)
    requires IsSubseq(a, b)
    ensures |a| <= |b|
    decreases |b|
  {
    if a != [] {
      if a[0] == b[0] && IsSubseq(a[1..], b[1..]) {
        SubseqLength(a[1..], b[1..]);
      } else {
        SubseqLength(a, b[1..]);
      }
    }
  }

  // ---------------------------------------------------------------------
  // Filter

  /** An element survives the filter iff it was in the input and passes. */
  lemma {:induction false} FilterMembers<T>(s: seq<T>, keep: T -> bool)
    ensures forall x :: x in Filter(s, keep) <==> x in s && keep(x)
  {
    if s != [] {
      FilterMembers(s[1..], keep);
      assert s == [s[0]] + s[1..];
    }
  }

  /** Each kept element occurs as often as in the input; the others never. */
  lemma {:induction false} FilterCount<T>(s: seq<T>, keep: T -> bool, x: T)
    ensures multiset(Filter(s, keep))[x] == if keep(x) then multiset(s)[x] else 0
  {
    if s != [] {
      FilterCount(s[1..], keep, x);
      assert s == [s[0]] + s[1..];
    }
  }

  /** The filter keeps the input order. */
  lemma {:induction false} FilterIsSubseq<T>(s: seq<T>, keep: T -> bool)
    ensures IsSubseq(Filter(s, keep), s)
  {
    if s != [] {
      FilterIsSubseq(s[1..], keep);
      if keep(s[0]) {
        assert Filter(s, keep)[1..] == Filter(s[1..], keep);
      }
    }
  }

  /** A filter that keeps every element is the identity. */
  lemma {:induction false} FilterKeepsAll<T>(s: seq<T>, keep: T -> bool)
    requires forall x :: x in s ==> keep(x)
    ensures Filter(s, keep) == s
  {
    if s != [] {
      FilterKeepsAll(s[1..], keep);
      assert s == [s[0]] + s[1..];
    }
  }

  /** A filter that keeps no element gives the empty sequence. */
  lemma FilterKeepsNone<T>(s: seq<T>, keep: T -> bool)
    requires forall x :: x in s ==> !keep(x)
    ensures Filter(s, keep) == []
  {
    FilterMembers(s, keep);
    assert forall x :: x !in Filter(s, keep);
  }

  lemma {:induction false} FilterAppend<T>(a: seq<T>, b: seq<T>, keep: T -> bool)
    ensures Filter(a + b, keep) == Filter(a, keep) + Filter(b, keep)
  {
    if a != [] {
      FilterAppend(a[1..], b, keep);
      assert (a + b)[1..] == a[1..] + b;
    } else {
      assert a + b == b;
    }
  }

  /** Filtering with a narrower condition is the same as filtering the result
      of the wider one again, so its result is a subsequence of the wider
      result. */
  lemma {:induction false} FilterNarrower<T>(s: seq<T>, wide: T -> bool, narrow: T -> bool)
    requires forall x :: x in s && narrow(x) ==> wide(x)
    ensures Filter(s, narrow) == Filter(Filter(s, wide), narrow)
    ensures IsSubseq(Filter(s, narrow), Filter(s, wide))
  {
    if s != [] {
      FilterNarrower(s[1..], wide, narrow);
    }
    FilterIsSubseq(Filter(s, wide), narrow);
  }

  /** Two conditions that agree on the elements of `s` filter it alike. */
  lemma {:induction false} FilterCongruent<T>(s: seq<T>, k1: T -> bool, k2: T -> bool)
    requires forall x :: x in s ==> (k1(x) <==> k2(x))
    ensures Filter(s, k1) == Filter(s, k2)
  {
    if s != [] {
      FilterCongruent(s[1..], k1, k2);
    }
  }

  lemma {:induction false} FilterNoDup<T>(s: seq<T>, keep: T -> bool)
    requires NoDup(s)
    ensures NoDup(Filter(s, keep))
  {
    if s != [] {
      assert NoDup(s[1..]);
      FilterNoDup(s[1..], keep);
      FilterMembers(s[1..], keep);
      assert s[0] !in s[1..];
    }
  }

  // ---------------------------------------------------------------------
  // FlatMap and Dedup

  /** An element is in the flattened sequence iff it is in one of the parts. */
  lemma {:induction false} FlatMapMembers<T, U>(s: seq<T>, f: T -> seq<U>, y: U)
    ensures y in FlatMap(s, f) <==> exists i :: 0 <= i < |s| && y in f(s[i])
  {
    if s != [] {
      FlatMapMembers(s[1..], f, y);
      if y in FlatMap(s[1..], f) {
        var i :| 0 <= i < |s[1..]| && y in f(s[1..][i]);
        assert y in f(s[i + 1]);
      }
      if exists i :: 0 <= i < |s| && y in f(s[i]) {
        var i :| 0 <= i < |s| && y in f(s[i]);
        if i > 0 {
          assert y in f(s[1..][i - 1]);
        }
      }
    }
  }

  /** The set of distinct elements: same members, none twice. */
  lemma {:induction false} DedupSpec<T>(s: seq<T>)
    ensures forall x :: x in Dedup(s) <==> x in s
    ensures NoDup(Dedup(s))
    decreases |s|
  {
    if s != [] {
      var init := s[..|s| - 1];
      DedupSpec(init);
      assert s == init + [s[|s| - 1]];
    }
  }
}
