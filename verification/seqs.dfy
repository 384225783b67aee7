/**
 * Order-preserving filtering of sequences: the one operation behind
 * `Array.prototype.filter` as used by the store's delete, the slot queries,
 * the month cells and the doctor search.
 */
module Seqs {

  /** `a` can be obtained from `b` by dropping elements, without reordering. */
  ghost predicate IsSubsequence<T>(a: seq<T>, b: seq<T>)
    decreases |b|
  {
    a == [] || (b != [] && if a[0] == b[0] then IsSubsequence(a[1..], b[1..]) else IsSubsequence(a, b[1..]))
  }

  /** The elements of `s` that satisfy `p`, in their original order. */
  function Filter<T(==,!new)>(s: seq<T>, p: T -> bool): (r: seq<T>)
    ensures |r| <= |s|
    ensures forall x :: x in r <==> x in s && p(x)
    decreases |s|
  {
    if s == [] then []
    else
      var rest := Filter(s[1..], p);
      assert s == [s[0]] + s[1..];
      if p(s[0]) then [s[0]] + rest else rest
  }

  /** Each value occurs in the result as often as in `s` if it passes, and not at all otherwise. */
  lemma {:induction false} FilterCounts<T(!new)>(s: seq<T>, p: T -> bool, x: T)
    ensures multiset(Filter(s, p))[x] == if p(x) then multiset(s)[x] else 0
    decreases |s|
  {
    if s != [] {
      FilterCounts(s[1..], p, x);
      assert s == [s[0]] + s[1..];
    }
  }

  /** The result keeps the relative order of `s`. */
  lemma {:induction false} FilterIsSubsequence<T(!new)>(s: seq<T>, p: T -> bool)
    ensures IsSubsequence(Filter(s, p), s)
    decreases |s|
  {
    if s != [] {
      FilterIsSubsequence(s[1..], p);
      SubsequenceOfTail(Filter(s[1..], p), s);
    }
  }

  /** A subsequence of the tail of `b` is a subsequence of `b`. */
  lemma {:induction false} SubsequenceOfTail<T>(a: seq<T>, b: seq<T>)
    requires b != [] && IsSubsequence(a, b[1..])
    ensures IsSubsequence(a, b)
    decreases |b|, 0
  {
    if a != [] && a[0] == b[0] {
      // a[0] occurs in b[1..] as well; matching it against b[0] instead leaves
      // a[1..] to be found in b[1..], which holds because it already is found later.
      SubsequenceDropHead(a, b[1..]);
    }
  }

  /** If `a` is a subsequence of `b`, so is `a` without its first element. */
  lemma {:induction false} SubsequenceDropHead<T>(a: seq<T>, b: seq<T>)
    requires a != [] && IsSubsequence(a, b)
    ensures IsSubsequence(a[1..], b)
    decreases |b|, 1
  {
    if a[0] == b[0] {
      if a[1..] != [] {
        SubsequenceOfTail(a[1..], b);
      }
    } else {
      SubsequenceDropHead(a, b[1..]);
      if a[1..] != [] {
        SubsequenceOfTail(a[1..], b);
      }
    }
  }

  /** Filtering keeps everything exactly when every element passes. */
  lemma {:induction false} FilterKeepsAll<T(!new)>(s: seq<T>, p: T -> bool)
    ensures Filter(s, p) == s <==> forall x :: x in s ==> p(x)
    decreases |s|
  {
    if s != [] {
      FilterKeepsAll(s[1..], p);
      assert s == [s[0]] + s[1..];
      if !p(s[0]) {
        assert |Filter(s, p)| <= |s[1..]| < |s|;
      }
    }
  }

  /** Filtering twice by the same predicate is filtering once. */
  lemma {:induction false} FilterIdempotent<T(!new)>(s: seq<T>, p: T -> bool)
    ensures Filter(Filter(s, p), p) == Filter(s, p)
  {
    FilterKeepsAll(Filter(s, p), p);
  }

  /** Filtering by `q` and then by `p` is filtering once by their conjunction `c`. */
  lemma {:induction false} FilterOfFilter<T(!new)>(s: seq<T>, q: T -> bool, p: T -> bool, c: T -> bool)
    requires forall x :: c(x) == (q(x) && p(x))
    ensures Filter(Filter(s, q), p) == Filter(s, c)
    decreases |s|
  {
    if s != [] {
      FilterOfFilter(s[1..], q, p, c);
      assert s == [s[0]] + s[1..];
      if q(s[0]) {
        assert Filter(s, q) == [s[0]] + Filter(s[1..], q);
        assert Filter(s, q)[1..] == Filter(s[1..], q);
      }
    }
  }

  /** Filtering an extended sequence filters the prefix and the new element separately. */
  lemma {:induction false} FilterAppend<T(!new)>(s: seq<T>, x: T, p: T -> bool)
    ensures Filter(s + [x], p) == Filter(s, p) + (if p(x) then [x] else [])
    decreases |s|
  {
    if s == [] {
      assert [] + [x] == [x];
      assert [x][1..] == [];
    } else {
      FilterAppend(s[1..], x, p);
      assert (s + [x])[1..] == s[1..] + [x];
    }
  }

  /** The first element that passes the filter heads its result. */
  lemma {:induction false} FilterFirst<T(!new)>(s: seq<T>, p: T -> bool, k: nat)
    requires k < |s| && p(s[k])
    requires forall j :: 0 <= j < k ==> !p(s[j])
    ensures Filter(s, p) != [] && Filter(s, p)[0] == s[k]
    decreases k
  {
    if k > 0 {
      FilterFirst(s[1..], p, k - 1);
    }
  }
}
