/**
 * The JavaScript array and string primitives the data layer is built from:
 * `Array.prototype.filter`, `Array.prototype.slice` and `String.prototype.includes`.
 */
module Seqs {
  import opened Wrappers

  /** `s.filter(p)`: the elements of `s` that satisfy `p`, in their original order. */
  function Filter<T>(s: seq<T>, p: T -> bool): (r: seq<T>)
    ensures |r| <= |s|
    ensures forall k :: 0 <= k < |r| ==> r[k] in s && p(r[k])
    ensures forall k :: 0 <= k < |s| && p(s[k]) ==> s[k] in r
  {
    if s == [] then []
    else (if p(s[0]) then [s[0]] else []) + Filter(s[1..], p)
  }

  lemma {:induction false} FilterConcat<T>(a: seq<T>, b: seq<T>, p: T -> bool)
    ensures Filter(a + b, p) == Filter(a, p) + Filter(b, p)
  {
    if a == [] {
      assert a + b == b;
    } else {
      assert (a + b)[1..] == a[1..] + b;
      FilterConcat(a[1..], b, p);
    }
  }

  /** Filtering keeps every occurrence of a satisfying element and drops every other one. */
  lemma {:induction false} FilterMultiset<T>(s: seq<T>, p: T -> bool, x: T)
    ensures multiset(Filter(s, p))[x] == if p(x) then multiset(s)[x] else 0
  {
    if s != [] {
      var t := s[1..];
      FilterMultiset(t, p, x);
      assert s == [s[0]] + t;
      var head := if p(s[0]) then [s[0]] else [];
      assert Filter(s, p) == head + Filter(t, p);
      assert multiset(Filter(s, p)) == multiset(head) + multiset(Filter(t, p));
      assert multiset(s) == multiset([s[0]]) + multiset(t);
    }
  }

  /** Exchanging two adjacent elements that do not both pass does not change what passes. */
  lemma FilterSwap<T>(a: seq<T>, x: T, y: T, b: seq<T>, p: T -> bool)
    requires !(p(x) && p(y))
    ensures Filter(a + [y, x] + b, p) == Filter(a + [x, y] + b, p)
  {
    FilterConcat(a + [x, y], b, p);
    FilterConcat(a, [x, y], p);
    FilterConcat(a + [y, x], b, p);
    FilterConcat(a, [y, x], p);
    assert Filter([x, y], p) == Filter([y, x], p) by {
      FilterConcat([x], [y], p);
      FilterConcat([y], [x], p);
      assert [x] + [y] == [x, y] && [y] + [x] == [y, x];
    }
  }

  /** Two predicates that agree on the elements of `s` filter it alike. */
  lemma {:induction false} FilterAgree<T>(s: seq<T>, p: T -> bool, q: T -> bool)
    requires forall x :: x in s ==> p(x) == q(x)
    ensures Filter(s, p) == Filter(s, q)
  {
    if s != [] {
      FilterAgree(s[1..], p, q);
    }
  }

  /** A predicate that holds of every element filters nothing out. */
  lemma {:induction false} FilterKeepsAll<T>(s: seq<T>, p: T -> bool)
    requires forall x :: x in s ==> p(x)
    ensures Filter(s, p) == s
  {
    if s != [] {
      FilterKeepsAll(s[1..], p);
    }
  }

  /** Filtering twice is filtering once by the conjunction. */
  lemma {:induction false} FilterFilter<T>(s: seq<T>, p: T -> bool, q: T -> bool, pq: T -> bool)
    requires forall x :: pq(x) == (p(x) && q(x))
    ensures Filter(Filter(s, p), q) == Filter(s, pq)
  {
    if s != [] {
      FilterFilter(s[1..], p, q, pq);
      var head := if p(s[0]) then [s[0]] else [];
      FilterConcat(head, Filter(s[1..], p), q);
    }
  }

  /** A predicate and its negation split `s` into two parts whose lengths add up. */
  lemma {:induction false} FilterPartition<T>(s: seq<T>, p: T -> bool, notP: T -> bool)
    requires forall x :: notP(x) == !p(x)
    ensures |Filter(s, p)| + |Filter(s, notP)| == |s|
  {
    if s != [] {
      FilterPartition(s[1..], p, notP);
    }
  }

  /** `r` is obtained from `s` by deleting elements, keeping the order of the rest. */
  ghost predicate IsSubsequence<T>(r: seq<T>, s: seq<T>)
    decreases |s|
  {
    if r == [] then true
    else if s == [] then false
    else if r[0] == s[0] && IsSubsequence(r[1..], s[1..]) then true
    else IsSubsequence(r, s[1..])
  }

  /** Filtering preserves the relative order of what it keeps. */
  lemma {:induction false} FilterIsSubsequence<T>(s: seq<T>, p: T -> bool)
    ensures IsSubsequence(Filter(s, p), s)
  {
    if s != [] {
      FilterIsSubsequence(s[1..], p);
      if p(s[0]) {
        assert Filter(s, p)[1..] == Filter(s[1..], p);
      } else {
        assert Filter(s, p) == Filter(s[1..], p);
      }
    }
  }

  /** JavaScript's relative-index rule for `slice`: negative counts from the end, clamped to the length. */
  function RelativeIndex(len: nat, k: int): (r: nat)
    ensures r <= len
    ensures 0 <= k ==> r == Min(k, len)
    ensures k < 0 ==> r == Max(len + k, 0)
  {
    if k < 0 then (if len + k < 0 then 0 else len + k)
    else if k > len then len
    else k
  }

  /** `s.slice(start, end)`. */
  function JsSlice<T>(s: seq<T>, start: int, end: int): (r: seq<T>)
    ensures |r| <= |s|
    ensures forall k :: 0 <= k < |r| ==> r[k] in s
    ensures 0 <= start <= end ==> r == s[Min(start, |s|)..Min(end, |s|)]
  {
    var from, to := RelativeIndex(|s|, start), RelativeIndex(|s|, end);
    if from < to then s[from..to] else []
  }

  /** `s.slice(0, k)` for a non-negative `k` is the first `min(k, |s|)` elements. */
  lemma SliceFromZero<T>(s: seq<T>, k: int)
    requires 0 <= k
    ensures JsSlice(s, 0, k) == s[..Min(k, |s|)]
    ensures |JsSlice(s, 0, k)| == Min(k, |s|)
  {
  }

  /** Every element of a prefix of `c + b` comes from `c` or from `b`. */
  lemma ConcatPrefixMembers<T>(c: seq<T>, b: seq<T>, m: int)
    requires 0 <= m <= |c| + |b|
    ensures forall x :: x in (c + b)[..m] ==> x in c || x in b
  {
    forall x | x in (c + b)[..m]
      ensures x in c || x in b
    {
      var i :| 0 <= i < m && (c + b)[..m][i] == x;
      assert x == (c + b)[i];
    }
  }

  /**
   * In a prefix of `c + b`, where every element of `c` satisfies `p` and none of
   * `b` does, the elements satisfying `p` come first.
   */
  lemma ConcatPrefixGrouped<T>(c: seq<T>, b: seq<T>, m: int, p: T -> bool)
    requires 0 <= m <= |c| + |b|
    requires forall i :: 0 <= i < |c| ==> p(c[i])
    requires forall j :: 0 <= j < |b| ==> !p(b[j])
    ensures forall i, j :: 0 <= i < j < m && p((c + b)[..m][j]) ==> p((c + b)[..m][i])
  {
    var r := (c + b)[..m];
    forall j | |c| <= j < m
      ensures !p(r[j])
    {
      assert r[j] == b[j - |c|];
    }
    forall i | 0 <= i < |c| && i < m
      ensures p(r[i])
    {
      assert r[i] == c[i];
    }
  }

  /** `needle` occurs in `hay` starting at index `i`. */
  predicate OccursAt(hay: string, needle: string, i: int)
  {
    0 <= i <= |hay| - |needle| && hay[i..i + |needle|] == needle
  }

  /** Adjacent slices join up. */
  /** A prefix of `a + b` is a prefix of `a`, or `a` followed by a prefix of `b`. */
  lemma PrefixOfConcat<T>(a: seq<T>, b: seq<T>, m: int)
    requires 0 <= m <= |a| + |b|
    ensures m <= |a| ==> (a + b)[..m] == a[..m]
    ensures m >= |a| ==> (a + b)[..m] == a + b[..m - |a|]
  {
    if m >= |a| {
      assert (a + b)[..m] == a + b[..m - |a|];
    } else {
      assert (a + b)[..m] == a[..m];
    }
  }

  lemma SliceConcat<T>(s: seq<T>, a: int, b: int, c: int)
    requires 0 <= a <= b <= c
    ensures JsSlice(s, a, b) + JsSlice(s, b, c) == JsSlice(s, a, c)
  {
    var n := |s|;
    assert s[Min(a, n)..Min(b, n)] + s[Min(b, n)..Min(c, n)] == s[Min(a, n)..Min(c, n)];
  }

  /** `hay.includes(needle)`, scanning `hay` from the left. */
  function Contains(hay: string, needle: string): (b: bool)
    ensures needle == [] ==> b
    ensures b ==> |needle| <= |hay|
    ensures |needle| == |hay| ==> (b <==> hay == needle)
    decreases |hay|
  {
    if |needle| <= |hay| && hay[..|needle|] == needle then true
    else if |needle| >= |hay| then false
    else Contains(hay[1..], needle)
  }

  /** An occurrence past index 0 is an occurrence in the tail, one index earlier, and the other way round. */
  lemma OccursInTail(s: string, x: string, i: int)
    requires |s| >= 1 && i >= 1
    ensures OccursAt(s, x, i) <==> OccursAt(s[1..], x, i - 1)
  {
    if i + |x| <= |s| {
      assert s[1..][i - 1..i - 1 + |x|] == s[i..i + |x|];
    }
  }

  lemma {:induction false} ContainsIffOccurs(hay: string, needle: string)
    ensures Contains(hay, needle) <==> exists i :: OccursAt(hay, needle, i)
    decreases |hay|
  {
    if |needle| <= |hay| && hay[..|needle|] == needle {
      assert OccursAt(hay, needle, 0);
    } else if |needle| >= |hay| {
      forall i
        ensures !OccursAt(hay, needle, i)
      {
      }
    } else {
      ContainsIffOccurs(hay[1..], needle);
      if exists i :: OccursAt(hay, needle, i) {
        var i :| OccursAt(hay, needle, i);
        OccursInTail(hay, needle, i);
      }
      if exists j :: OccursAt(hay[1..], needle, j) {
        var j :| OccursAt(hay[1..], needle, j);
        OccursInTail(hay, needle, j + 1);
      }
    }
  }
}
