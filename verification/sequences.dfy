/** Sequence operations of `Array.prototype`: `filter`, the stable `sort` under an ordering given
    as a "comes no later than" relation, and the totals and distinctness facts the tables need. */
module Sequences {

  /** `s.filter(p)`: the elements satisfying `p`, in order, each as often as in `s`. */
  function FilterBy<T(!new)>(s: seq<T>, p: T -> bool): (r: seq<T>)
    ensures |r| <= |s|
    ensures forall x :: multiset(r)[x] == if p(x) then multiset(s)[x] else 0
    ensures forall i :: 0 <= i < |r| ==> p(r[i])
  {
    if s == [] then []
    else
      assert s == [s[0]] + s[1..];
      (if p(s[0]) then [s[0]] else []) + FilterBy(s[1..], p)
  }

  /** Filtering keeps exactly the elements that satisfy the predicate. */
  lemma FilterMembers<T(!new)>(s: seq<T>, p: T -> bool, x: T)
    ensures x in FilterBy(s, p) <==> x in s && p(x)
  {
    assert x in FilterBy(s, p) <==> multiset(FilterBy(s, p))[x] > 0;
    assert x in s <==> multiset(s)[x] > 0;
  }

  /** Filtering a concatenation filters each part. */
  lemma {:induction false} FilterConcat<T(!new)>(a: seq<T>, b: seq<T>, p: T -> bool)
    ensures FilterBy(a + b, p) == FilterBy(a, p) + FilterBy(b, p)
    decreases |a|
  {
    if a == [] {
      assert a + b == b;
    } else {
      var ab := a + b;
      assert ab != [] && ab[0] == a[0] && ab[1..] == a[1..] + b;
      FilterConcat(a[1..], b, p);
      FilterHead(ab, p);
      FilterHead(a, p);
      ConcatAssoc(if p(a[0]) then [a[0]] else [], FilterBy(a[1..], p), FilterBy(b, p));
    }
  }

  /** One unfolding of the filter. */
  lemma FilterHead<T(!new)>(s: seq<T>, p: T -> bool)
    requires s != []
    ensures FilterBy(s, p) == (if p(s[0]) then [s[0]] else []) + FilterBy(s[1..], p)
  {
  }

  lemma ConcatAssoc<T>(a: seq<T>, b: seq<T>, c: seq<T>)
    ensures a + (b + c) == (a + b) + c
  {
  }

  /** Filtering keeps a sequence whose every element passes. */
  lemma {:induction false} FilterAll<T(!new)>(s: seq<T>, p: T -> bool)
    requires forall i :: 0 <= i < |s| ==> p(s[i])
    ensures FilterBy(s, p) == s
    decreases |s|
  {
    if s != [] {
      forall i | 0 <= i < |s| - 1 ensures p(s[1..][i]) {
        assert s[1..][i] == s[i + 1];
      }
      FilterAll(s[1..], p);
      FilterHead(s, p);
      assert p(s[0]);
      assert s == [s[0]] + s[1..];
    }
  }

  /** Filtering by a conjunction is filtering by one conjunct and then by the other. */
  lemma {:induction false} FilterAnd<T(!new)>(s: seq<T>, p: T -> bool, q: T -> bool, both: T -> bool)
    requires forall x :: both(x) == (p(x) && q(x))
    ensures FilterBy(s, both) == FilterBy(FilterBy(s, p), q)
    decreases |s|
  {
    if s != [] {
      FilterAnd(s[1..], p, q, both);
      FilterConcat(if p(s[0]) then [s[0]] else [], FilterBy(s[1..], p), q);
    }
  }

  /** `le` is total and transitive: a comparator the sort can honour. */
  ghost predicate TotalPreorder<T(!new)>(le: (T, T) -> bool) {
    && (forall a, b :: le(a, b) || le(b, a))
    && (forall a, b, c :: le(a, b) && le(b, c) ==> le(a, c))
  }

  /** Every element comes no later than every element after it. */
  ghost predicate SortedBy<T>(s: seq<T>, le: (T, T) -> bool) {
    forall i, j :: 0 <= i < j < |s| ==> le(s[i], s[j])
  }

  /** No element occurs twice. */
  ghost predicate Distinct<T>(s: seq<T>) {
    forall i, j :: 0 <= i < j < |s| ==> s[i] != s[j]
  }

  /** Places `x` in front of the first element it comes no later than. */
  function Insert<T>(x: T, s: seq<T>, le: (T, T) -> bool): (r: seq<T>)
    ensures multiset(r) == multiset(s) + multiset{x}
  {
    if s == [] then [x]
    else if le(x, s[0]) then [x] + s
    else
      assert s == [s[0]] + s[1..];
      [s[0]] + Insert(x, s[1..], le)
  }

  /** Insertion sort; equal elements keep their input order. */
  function Sort<T>(s: seq<T>, le: (T, T) -> bool): (r: seq<T>)
    ensures multiset(r) == multiset(s)
  {
    if s == [] then []
    else
      assert s == [s[0]] + s[1..];
      Insert(s[0], Sort(s[1..], le), le)
  }

  lemma {:induction false} InsertSorted<T(!new)>(x: T, s: seq<T>, le: (T, T) -> bool)
    requires TotalPreorder(le)
    requires SortedBy(s, le)
    ensures SortedBy(Insert(x, s, le), le)
    decreases |s|
  {
    if s != [] && !le(x, s[0]) {
      var t := Insert(x, s[1..], le);
      assert SortedBy(s[1..], le);
      InsertSorted(x, s[1..], le);
      assert le(s[0], x);
      forall k | 0 <= k < |t|
        ensures le(s[0], t[k])
      {
        assert t[k] in multiset(t);
        if t[k] != x {
          assert t[k] in multiset(s[1..]);
          var m :| 0 <= m < |s[1..]| && s[1..][m] == t[k];
          assert s[m + 1] == t[k];
        }
      }
    }
  }

  /** The sort's output is ordered. */
  lemma {:induction false} SortSorted<T(!new)>(s: seq<T>, le: (T, T) -> bool)
    requires TotalPreorder(le)
    ensures SortedBy(Sort(s, le), le)
    decreases |s|
  {
    if s != [] {
      SortSorted(s[1..], le);
      InsertSorted(s[0], Sort(s[1..], le), le);
    }
  }

  /** A sequence has no repeated element exactly when no element has multiplicity above one. */
  lemma {:induction false} DistinctMultiset<T>(s: seq<T>)
    ensures Distinct(s) <==> forall x :: multiset(s)[x] <= 1
    decreases |s|
  {
    if s != [] {
      DistinctMultiset(s[1..]);
      assert s == [s[0]] + s[1..];
      assert multiset(s) == multiset{s[0]} + multiset(s[1..]);
      if Distinct(s) {
        assert Distinct(s[1..]);
        forall k | 0 <= k < |s[1..]|
          ensures s[1..][k] != s[0]
        {
          assert s[1..][k] == s[k + 1];
        }
        assert s[0] !in s[1..];
      }
      if forall x :: multiset(s)[x] <= 1 {
        assert forall x :: multiset(s[1..])[x] <= 1 by {
          forall x ensures multiset(s[1..])[x] <= 1 {
            assert multiset(s)[x] >= multiset(s[1..])[x];
          }
        }
        assert multiset(s[1..])[s[0]] == 0 by {
          assert multiset(s)[s[0]] == 1 + multiset(s[1..])[s[0]];
        }
        forall i, j | 0 <= i < j < |s|
          ensures s[i] != s[j]
        {
          if i == 0 {
            assert s[j] in multiset(s[1..]) by { assert s[j] == s[1..][j - 1]; }
          } else {
            assert s[1..][i - 1] == s[i] && s[1..][j - 1] == s[j];
          }
        }
      }
    }
  }

  /** Sorting neither creates nor removes repetitions. */
  lemma SortKeepsDistinct<T>(s: seq<T>, le: (T, T) -> bool)
    ensures Distinct(Sort(s, le)) <==> Distinct(s)
  {
    DistinctMultiset(s);
    DistinctMultiset(Sort(s, le));
  }

  /** The total of `f` over a sequence. */
  function SumBy<T>(s: seq<T>, f: T -> int): int {
    if s == [] then 0 else f(s[0]) + SumBy(s[1..], f)
  }

  lemma {:induction false} SumByConcat<T>(a: seq<T>, b: seq<T>, f: T -> int)
    ensures SumBy(a + b, f) == SumBy(a, f) + SumBy(b, f)
    decreases |a|
  {
    if a == [] {
      assert a + b == b;
    } else {
      assert (a + b)[1..] == a[1..] + b;
      SumByConcat(a[1..], b, f);
    }
  }

  /** Taking one element out of a sequence: what is left, its multiset and its total. */
  lemma RemoveAt<T>(b: seq<T>, i: nat, f: T -> int)
    requires i < |b|
    ensures multiset(b[..i] + b[i + 1..]) + multiset{b[i]} == multiset(b)
    ensures SumBy(b, f) == f(b[i]) + SumBy(b[..i] + b[i + 1..], f)
  {
    RemoveAtMultiset(b, i);
    RemoveAtSum(b, i, f);
  }

  lemma RemoveAtMultiset<T>(b: seq<T>, i: nat)
    requires i < |b|
    ensures multiset(b[..i] + b[i + 1..]) + multiset{b[i]} == multiset(b)
  {
    var l, m, r := b[..i], b[i..], b[i + 1..];
    assert b == l + m;
    assert m == [b[i]] + r;
    assert multiset(b) == multiset(l) + multiset(m);
    assert multiset(m) == multiset{b[i]} + multiset(r);
    assert multiset(l + r) == multiset(l) + multiset(r);
  }

  lemma RemoveAtSum<T>(b: seq<T>, i: nat, f: T -> int)
    requires i < |b|
    ensures SumBy(b, f) == f(b[i]) + SumBy(b[..i] + b[i + 1..], f)
  {
    var l, m, r := b[..i], b[i..], b[i + 1..];
    assert b == l + m;
    SumByConcat(l, m, f);
    assert m[0] == b[i] && m[1..] == r;
    SumByConcat(l, r, f);
  }

  /** Changing one element changes the total by the difference. */
  lemma SumByUpdate<T>(s: seq<T>, i: nat, x: T, f: T -> int)
    requires i < |s|
    ensures SumBy(s[i := x], f) == SumBy(s, f) - f(s[i]) + f(x)
  {
    RemoveAt(s, i, f);
    RemoveAt(s[i := x], i, f);
    assert s[i := x][..i] + s[i := x][i + 1..] == s[..i] + s[i + 1..];
  }

  /** A total does not depend on the order of the elements. */
  lemma {:induction false} SumByPermutation<T>(a: seq<T>, b: seq<T>, f: T -> int)
    requires multiset(a) == multiset(b)
    ensures SumBy(a, f) == SumBy(b, f)
    decreases |a|
  {
    if a != [] {
      assert a[0] in multiset(b);
      var i :| 0 <= i < |b| && b[i] == a[0];
      var rest := b[..i] + b[i + 1..];
      RemoveAt(b, i, f);
      RemoveMatchingHead(a, b, i);
      SumByPermutation(a[1..], rest, f);
    }
  }

  /** Taking the head off one arrangement and an equal element off the other leaves equal
      multisets. */
  lemma RemoveMatchingHead<T>(a: seq<T>, b: seq<T>, i: nat)
    requires multiset(a) == multiset(b) && a != [] && i < |b| && b[i] == a[0]
    requires multiset(b[..i] + b[i + 1..]) + multiset{b[i]} == multiset(b)
    ensures multiset(a[1..]) == multiset(b[..i] + b[i + 1..])
  {
    var rest := b[..i] + b[i + 1..];
    assert a == [a[0]] + a[1..];
    assert multiset(a) == multiset(a[1..]) + multiset{a[0]};
    forall x ensures multiset(a[1..])[x] == multiset(rest)[x] {
      assert multiset(a)[x] == multiset(a[1..])[x] + multiset{a[0]}[x];
      assert multiset(b)[x] == multiset(rest)[x] + multiset{b[i]}[x];
    }
  }

  /** When `le` orders distinct elements strictly, a collection has exactly one ordering:
      the sorted result does not depend on the order the elements arrived in. */
  lemma {:induction false} SortedUnique<T(!new)>(a: seq<T>, b: seq<T>, le: (T, T) -> bool)
    requires forall x, y :: le(x, y) && le(y, x) ==> x == y
    requires SortedBy(a, le) && SortedBy(b, le)
    requires multiset(a) == multiset(b)
    ensures a == b
    decreases |a|
  {
    if a != [] {
      assert |b| == |multiset(b)| == |multiset(a)| == |a|;
      SortedHeads(a, b, le);
      TailsAgree(a, b);
      SortedUnique(a[1..], b[1..], le);
    }
  }

  /** Two sorted arrangements of one multiset start with the same element. */
  lemma SortedHeads<T(!new)>(a: seq<T>, b: seq<T>, le: (T, T) -> bool)
    requires forall x, y :: le(x, y) && le(y, x) ==> x == y
    requires SortedBy(a, le) && SortedBy(b, le)
    requires multiset(a) == multiset(b) && a != [] && b != []
    ensures a[0] == b[0]
  {
    assert a[0] in multiset(b) && b[0] in multiset(a);
    var k :| 0 <= k < |b| && b[k] == a[0];
    var m :| 0 <= m < |a| && a[m] == b[0];
    if m > 0 && k > 0 {
      assert le(a[0], a[m]) && le(b[0], b[k]);
    }
  }

  /** Removing an equal head from two arrangements of one multiset leaves equal multisets. */
  lemma TailsAgree<T>(a: seq<T>, b: seq<T>)
    requires multiset(a) == multiset(b) && a != [] && b != [] && a[0] == b[0]
    ensures multiset(a[1..]) == multiset(b[1..])
  {
    assert a == [a[0]] + a[1..] && b == [b[0]] + b[1..];
    assert multiset(a) == multiset{a[0]} + multiset(a[1..]);
    assert multiset(b) == multiset{b[0]} + multiset(b[1..]);
    forall x ensures multiset(a[1..])[x] == multiset(b[1..])[x] {
      assert multiset(a)[x] == multiset{a[0]}[x] + multiset(a[1..])[x];
      assert multiset(b)[x] == multiset{b[0]}[x] + multiset(b[1..])[x];
    }
  }

  /** The total of a real-valued `f` over a sequence. */
  function SumReal<T>(s: seq<T>, f: T -> real): real {
    if s == [] then 0.0 else f(s[0]) + SumReal(s[1..], f)
  }

  lemma {:induction false} SumRealConcat<T>(a: seq<T>, b: seq<T>, f: T -> real)
    ensures SumReal(a + b, f) == SumReal(a, f) + SumReal(b, f)
    decreases |a|
  {
    if a == [] {
      assert a + b == b;
    } else {
      assert (a + b)[1..] == a[1..] + b;
      SumRealConcat(a[1..], b, f);
    }
  }

  /** A total of non-negative terms is non-negative. */
  lemma {:induction false} SumRealNonNegative<T>(s: seq<T>, f: T -> real)
    requires forall x :: x in s ==> f(x) >= 0.0
    ensures SumReal(s, f) >= 0.0
    decreases |s|
  {
    if s != [] {
      SumRealNonNegative(s[1..], f);
    }
  }

  /** Dropping non-negative terms cannot increase a total. */
  lemma {:induction false} SumRealFilter<T(!new)>(s: seq<T>, p: T -> bool, f: T -> real)
    requires forall x :: x in s ==> f(x) >= 0.0
    ensures SumReal(FilterBy(s, p), f) <= SumReal(s, f)
    decreases |s|
  {
    if s != [] {
      SumRealFilter(s[1..], p, f);
      SumRealConcat(if p(s[0]) then [s[0]] else [], FilterBy(s[1..], p), f);
    }
  }

  /** Filters with predicates that agree everywhere on `s` agree. */
  lemma {:induction false} FilterSame<T(!new)>(s: seq<T>, p: T -> bool, q: T -> bool)
    requires forall x :: x in s ==> p(x) == q(x)
    ensures FilterBy(s, p) == FilterBy(s, q)
    decreases |s|
  {
    if s != [] {
      FilterSame(s[1..], p, q);
    }
  }

  /** Two predicates that never hold together select at most all elements between them. */
  lemma {:induction false} FilterDisjoint<T(!new)>(s: seq<T>, p: T -> bool, q: T -> bool)
    requires forall x :: x in s ==> !(p(x) && q(x))
    ensures |FilterBy(s, p)| + |FilterBy(s, q)| <= |s|
    decreases |s|
  {
    if s != [] {
      FilterDisjoint(s[1..], p, q);
    }
  }

  /** No two elements share a key. */
  ghost predicate KeysDistinct<T, K>(s: seq<T>, key: T -> K) {
    forall i, j :: 0 <= i < j < |s| ==> key(s[i]) != key(s[j])
  }

  /** Reordering keeps keys distinct. */
  lemma KeysDistinctPermutation<T, K>(a: seq<T>, b: seq<T>, key: T -> K)
    requires KeysDistinct(a, key)
    requires multiset(b) == multiset(a)
    ensures KeysDistinct(b, key)
  {
    assert Distinct(a) by {
      forall i, j | 0 <= i < j < |a| ensures a[i] != a[j] { }
    }
    DistinctMultiset(a);
    DistinctMultiset(b);
    forall i, j | 0 <= i < j < |b|
      ensures key(b[i]) != key(b[j])
    {
      assert b[i] in multiset(a) && b[j] in multiset(a);
      var x :| 0 <= x < |a| && a[x] == b[i];
      var y :| 0 <= y < |a| && a[y] == b[j];
      assert x != y;
    }
  }

  /** Totals of two sequences agree when their elements contribute the same, position by position. */
  lemma {:induction false} SumByPointwise<A, B>(a: seq<A>, f: A -> int, b: seq<B>, g: B -> int)
    requires |a| == |b|
    requires forall i :: 0 <= i < |a| ==> f(a[i]) == g(b[i])
    ensures SumBy(a, f) == SumBy(b, g)
    decreases |a|
  {
    if a != [] {
      SumByPointwise(a[1..], f, b[1..], g);
    }
  }
}
