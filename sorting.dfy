/**
 * Stable in-place sorting, as `Array.prototype.sort` with a comparator does it.
 *
 * A comparator `cmp` is described by the relation `le(a, b) <==> cmp(a, b) <= 0`
 * ("a may stay before b"); a consistent comparator makes `le` a total preorder.
 * Stability is stated without element identities: for every value `v`, the
 * elements equivalent to `v` appear in the result in the order they had before.
 */
module Sorting {
  import opened Seqs

  ghost predicate TotalPreorder<T(!new)>(le: (T, T) -> bool)
  {
    (forall x, y :: le(x, y) || le(y, x)) &&
    (forall x, y, z :: le(x, y) && le(y, z) ==> le(x, z))
  }

  /** Every element may stay before every later one. */
  ghost predicate Ordered<T>(le: (T, T) -> bool, s: seq<T>)
  {
    forall i, j :: 0 <= i < j < |s| ==> le(s[i], s[j])
  }

  /** The comparator returns 0 for `x` and `y`. */
  predicate Equivalent<T>(le: (T, T) -> bool, x: T, y: T)
  {
    le(x, y) && le(y, x)
  }

  function EquivalentTo<T>(le: (T, T) -> bool, v: T): T -> bool
  {
    x => Equivalent(le, x, v)
  }

  /** The elements of `s` that compare equal to `v`, in the order of `s`. */
  function ClassOf<T>(le: (T, T) -> bool, s: seq<T>, v: T): seq<T>
  {
    Filter(s, EquivalentTo(le, v))
  }

  /** `s` and `t` list the members of every equivalence class in the same order. */
  ghost predicate SameClasses<T(!new)>(le: (T, T) -> bool, s: seq<T>, t: seq<T>)
  {
    forall v :: ClassOf(le, s, v) == ClassOf(le, t, v)
  }

  /** `r` is the stable sort of `s` under `le`. */
  ghost predicate StablySorted<T(!new)>(le: (T, T) -> bool, r: seq<T>, s: seq<T>)
  {
    Ordered(le, r) && SameClasses(le, r, s)
  }

  /** Exchanging two adjacent elements that compare strictly out of order keeps every class's order. */
  lemma SwapKeepsClasses<T(!new)>(le: (T, T) -> bool, s: seq<T>, j: int)
    requires TotalPreorder(le)
    requires 0 < j < |s| && !le(s[j - 1], s[j])
    ensures SameClasses(le, s[j - 1 := s[j]][j := s[j - 1]], s)
  {
    var t := s[j - 1 := s[j]][j := s[j - 1]];
    var x, y := s[j - 1], s[j];
    assert s == s[..j - 1] + [x, y] + s[j + 1..];
    assert t == s[..j - 1] + [y, x] + s[j + 1..];
    forall v
      ensures ClassOf(le, t, v) == ClassOf(le, s, v)
    {
      assert !(Equivalent(le, x, v) && Equivalent(le, y, v));
      FilterSwap(s[..j - 1], x, y, s[j + 1..], EquivalentTo(le, v));
    }
  }

  /** A stable sort is a permutation. */
  lemma ClassesGivePermutation<T(!new)>(le: (T, T) -> bool, s: seq<T>, t: seq<T>)
    requires TotalPreorder(le)
    requires SameClasses(le, s, t)
    ensures multiset(s) == multiset(t)
  {
    forall v
      ensures multiset(s)[v] == multiset(t)[v]
    {
      assert le(v, v);
      FilterMultiset(s, EquivalentTo(le, v), v);
      FilterMultiset(t, EquivalentTo(le, v), v);
      assert ClassOf(le, s, v) == ClassOf(le, t, v);
    }
  }

  lemma ClassOfCons<T>(le: (T, T) -> bool, s: seq<T>, v: T)
    requires s != []
    ensures ClassOf(le, s, v) == (if Equivalent(le, s[0], v) then [s[0]] else []) + ClassOf(le, s[1..], v)
  {
  }

  /** Two ordered sequences with the same classes start with the same element. */
  lemma SameHead<T(!new)>(le: (T, T) -> bool, r1: seq<T>, r2: seq<T>)
    requires TotalPreorder(le)
    requires Ordered(le, r1) && Ordered(le, r2) && SameClasses(le, r1, r2)
    requires multiset(r1) == multiset(r2) && r1 != [] && r2 != []
    ensures r1[0] == r2[0]
  {
    var a, b := r1[0], r2[0];
    assert a in multiset(r2) && b in multiset(r1);
    assert le(b, a) by {
      var k :| 0 <= k < |r2| && r2[k] == a;
      if k == 0 { assert le(a, a); }
    }
    assert le(a, b) by {
      var k :| 0 <= k < |r1| && r1[k] == b;
      if k == 0 { assert le(b, b); }
    }
    assert le(a, a);
    assert Equivalent(le, a, a) && Equivalent(le, b, a);
    ClassOfCons(le, r1, a);
    ClassOfCons(le, r2, a);
    assert ClassOf(le, r1, a)[0] == a;
    assert ClassOf(le, r2, a)[0] == b;
    assert ClassOf(le, r1, a) == ClassOf(le, r2, a);
  }

  /** There is only one stable sort: two ordered sequences with the same classes are equal. */
  lemma {:induction false} StableSortIsUnique<T(!new)>(le: (T, T) -> bool, r1: seq<T>, r2: seq<T>)
    requires TotalPreorder(le)
    requires Ordered(le, r1) && Ordered(le, r2) && SameClasses(le, r1, r2)
    ensures r1 == r2
    decreases |r1|
  {
    ClassesGivePermutation(le, r1, r2);
    assert |r1| == |multiset(r1)| == |multiset(r2)| == |r2|;
    if r1 != [] {
      SameHead(le, r1, r2);
      forall v
        ensures ClassOf(le, r1[1..], v) == ClassOf(le, r2[1..], v)
      {
        ClassOfCons(le, r1, v);
        ClassOfCons(le, r2, v);
        var head := if Equivalent(le, r1[0], v) then [r1[0]] else [];
        assert ClassOf(le, r1[1..], v) == ClassOf(le, r1, v)[|head|..];
        assert ClassOf(le, r2[1..], v) == ClassOf(le, r2, v)[|head|..];
      }
      StableSortIsUnique(le, r1[1..], r2[1..]);
      assert r1 == [r1[0]] + r1[1..] && r2 == [r2[0]] + r2[1..];
    }
  }

  /** Sorting a sequence that is already in order leaves it as it is. */
  lemma OrderedIsFixpoint<T(!new)>(le: (T, T) -> bool, r: seq<T>, s: seq<T>)
    requires TotalPreorder(le)
    requires StablySorted(le, r, s) && Ordered(le, s)
    ensures r == s
  {
    StableSortIsUnique(le, r, s);
  }

  /** The first `k` elements of an ordered sequence may precede all the others. */
  lemma PrefixPrecedesRest<T(!new)>(le: (T, T) -> bool, s: seq<T>, k: nat)
    requires Ordered(le, s) && k <= |s|
    ensures forall x, y :: x in s[..k] && y in multiset(s) - multiset(s[..k]) ==> le(x, y)
  {
    assert s == s[..k] + s[k..];
    assert multiset(s) - multiset(s[..k]) == multiset(s[k..]);
    forall x, y | x in s[..k] && y in multiset(s[k..])
      ensures le(x, y)
    {
      var i :| 0 <= i < k && s[..k][i] == x;
      var j :| 0 <= j < |s[k..]| && s[k..][j] == y;
      assert s[i] == x && s[k + j] == y;
    }
  }

  /** Moves `a[i]` left past every element that must follow it, leaving `a[..i+1]` ordered. */
  method InsertNext<T(!new)>(a: array<T>, i: int, le: (T, T) -> bool)
    requires TotalPreorder(le)
    requires 0 <= i < a.Length
    requires Ordered(le, a[..i])
    modifies a
    ensures Ordered(le, a[..i + 1])
    ensures SameClasses(le, a[..], old(a[..]))
  {
    var j := i;
    while 0 < j && !le(a[j - 1], a[j])
      invariant 0 <= j <= i
      invariant forall p, q :: 0 <= p < q < j ==> le(a[p], a[q])
      invariant forall p, q :: j <= p < q <= i ==> le(a[p], a[q])
      invariant forall p, q :: 0 <= p < j < q <= i ==> le(a[p], a[q])
      invariant SameClasses(le, a[..], old(a[..]))
    {
      ghost var before := a[..];
      SwapKeepsClasses(le, before, j);
      a[j - 1], a[j] := a[j], a[j - 1];
      assert a[..] == before[j - 1 := before[j]][j := before[j - 1]];
      j := j - 1;
    }
  }

  /** Stable insertion sort of `a` in place. */
  method InsertionSort<T(!new)>(a: array<T>, le: (T, T) -> bool)
    requires TotalPreorder(le)
    modifies a
    ensures StablySorted(le, a[..], old(a[..]))
    ensures multiset(a[..]) == multiset(old(a[..]))
  {
    var i := 0;
    while i < a.Length
      invariant 0 <= i <= a.Length
      invariant Ordered(le, a[..i])
      invariant SameClasses(le, a[..], old(a[..]))
    {
      InsertNext(a, i, le);
      i := i + 1;
    }
    assert a[..i] == a[..];
    ClassesGivePermutation(le, a[..], old(a[..]));
  }
}
