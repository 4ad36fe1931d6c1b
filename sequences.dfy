/** Sums and a stable sort over sequences, shared by the store queries and
    the report scripts. The sort stands for both SQLite's ORDER BY and
    JavaScript's `Array.prototype.sort`, which is stable. */
module Sequences {

  /** `rows.reduce((sum, row) => sum + f(row), 0)`. */
  function SumOf<T>(s: seq<T>, f: T -> int): int {
    if s == [] then 0 else f(s[0]) + SumOf(s[1..], f)
  }

  lemma {:induction false} SumOfConcat<T>(a: seq<T>, b: seq<T>, f: T -> int)
    ensures SumOf(a + b, f) == SumOf(a, f) + SumOf(b, f)
  {
    if a == [] {
      assert a + b == b;
    } else {
      assert (a + b)[1..] == a[1..] + b;
      SumOfConcat(a[1..], b, f);
    }
  }

  /** A prefix one longer is the prefix and the next element. */
  lemma TakeSnoc<T>(s: seq<T>, i: nat)
    requires i < |s|
    ensures s[..i + 1] == s[..i] + [s[i]]
  {
  }

  /** Concatenating five pieces from the left or from the right gives the
      same sequence. */
  lemma ConcatRight<T>(a: seq<T>, b: seq<T>, c: seq<T>, d: seq<T>, e: seq<T>)
    ensures a + b + c + d + e == a + (b + (c + (d + e)))
  {
  }

  /** The same, for a slice that starts at `lo`. */
  lemma SliceSnoc<T>(s: seq<T>, lo: nat, i: nat)
    requires lo <= i < |s|
    ensures s[lo..i + 1] == s[lo..i] + [s[i]]
  {
  }

  /** A sum does not depend on the order of its terms. */
  lemma {:induction false} SumOfPermutation<T>(a: seq<T>, b: seq<T>, f: T -> int)
    requires multiset(a) == multiset(b)
    ensures SumOf(a, f) == SumOf(b, f)
    decreases |a|
  {
    if a == [] {
      assert |b| == |multiset(b)| == 0;
    } else {
      var x := a[0];
      assert x in multiset(b);
      var k :| 0 <= k < |b| && b[k] == x;
      var rest := b[..k] + b[k + 1..];
      RemoveAt(b, k);
      assert a == [x] + a[1..];
      assert multiset(a[1..]) == multiset(a) - multiset{x};
      SumOfPermutation(a[1..], rest, f);
      SumOfRemoveAt(b, k, f);
    }
  }

  /** Taking out the element at `k` takes one copy of it out of the
      multiset. */
  lemma RemoveAt<T>(b: seq<T>, k: nat)
    requires k < |b|
    ensures multiset(b[..k] + b[k + 1..]) == multiset(b) - multiset{b[k]}
  {
    assert b == b[..k] + [b[k]] + b[k + 1..];
  }

  /** Taking out the element at `k` takes its term out of the sum. */
  lemma SumOfRemoveAt<T>(b: seq<T>, k: nat, f: T -> int)
    requires k < |b|
    ensures SumOf(b, f) == f(b[k]) + SumOf(b[..k] + b[k + 1..], f)
  {
    assert b == b[..k] + [b[k]] + b[k + 1..];
    SumOfConcat(b[..k] + [b[k]], b[k + 1..], f);
    SumOfConcat(b[..k], [b[k]], f);
    SumOfConcat(b[..k], b[k + 1..], f);
  }

  /** `s.filter(p)`. */
  function Filter<T>(s: seq<T>, p: T -> bool): (r: seq<T>)
    ensures |r| <= |s|
    ensures forall i :: 0 <= i < |r| ==> p(r[i])
    ensures forall i :: 0 <= i < |s| ==> (s[i] in r <==> p(s[i]))
    ensures multiset(r) <= multiset(s)
  {
    if s == [] then []
    else
      assert s == [s[0]] + s[1..];
      (if p(s[0]) then [s[0]] else []) + Filter(s[1..], p)
  }

  /** The filter keeps exactly the elements that pass it. */
  lemma FilterMember<T>(s: seq<T>, p: T -> bool, x: T)
    ensures x in Filter(s, p) <==> x in s && p(x)
  {
    if x in Filter(s, p) {
      assert x in multiset(s);
    }
  }

  /** Filtering distributes over concatenation. */
  lemma {:induction false} FilterConcat<T>(a: seq<T>, b: seq<T>, p: T -> bool)
    ensures Filter(a + b, p) == Filter(a, p) + Filter(b, p)
  {
    if a == [] {
      assert a + b == b;
    } else {
      assert (a + b)[0] == a[0];
      assert (a + b)[1..] == a[1..] + b;
      FilterConcat(a[1..], b, p);
    }
  }

  /** A filter every element passes keeps the whole sequence. */
  lemma {:induction false} FilterAll<T>(s: seq<T>, p: T -> bool)
    requires forall i :: 0 <= i < |s| ==> p(s[i])
    ensures Filter(s, p) == s
  {
    if s != [] {
      FilterAll(s[1..], p);
      assert s == [s[0]] + s[1..];
    }
  }

  /** Every element lands on exactly one side of a filter. */
  lemma {:induction false} FilterPartition<T>(s: seq<T>, p: T -> bool)
    ensures |Filter(s, p)| + |Filter(s, x => !p(x))| == |s|
  {
    if s != [] {
      FilterPartition(s[1..], p);
    }
  }

  /** Filtering keeps the relative order of the elements it keeps: a
      relation that holds between every earlier and later element still
      holds afterwards. */
  lemma {:induction false} FilterKeepsOrder<T>(s: seq<T>, p: T -> bool, rel: (T, T) -> bool)
    requires SortedBy(s, rel)
    ensures SortedBy(Filter(s, p), rel)
  {
    if s != [] {
      FilterKeepsOrder(s[1..], p, rel);
      var tail := Filter(s[1..], p);
      forall j | 0 <= j < |tail| ensures rel(s[0], tail[j]) {
        assert tail[j] in multiset(s[1..]);
        var k :| 0 <= k < |s[1..]| && s[1..][k] == tail[j];
        assert s[k + 1] == tail[j];
      }
    }
  }

  // ---------------------------------------------------------------------
  // A stable sort
  // ---------------------------------------------------------------------

  /** `le` is a total preorder: every two elements are comparable and the
      relation is transitive. Equal keys are allowed. */
  ghost predicate TotalPreorder<T(!new)>(le: (T, T) -> bool) {
    (forall a, b :: le(a, b) || le(b, a)) &&
    (forall a, b, c :: le(a, b) && le(b, c) ==> le(a, c))
  }

  predicate SortedBy<T>(s: seq<T>, le: (T, T) -> bool) {
    forall i, j :: 0 <= i < j < |s| ==> le(s[i], s[j])
  }

  /** Places `x` after every element that is not strictly greater. */
  function InsertBy<T>(x: T, s: seq<T>, le: (T, T) -> bool): (r: seq<T>)
    ensures |r| == |s| + 1
  {
    if s == [] then [x]
    else if le(x, s[0]) && !le(s[0], x) then [x] + s
    else [s[0]] + InsertBy(x, s[1..], le)
  }

  /** Insertion sort, taking the elements from first to last, so that equal
      elements keep their input order. */
  function SortBy<T>(s: seq<T>, le: (T, T) -> bool): (r: seq<T>)
    ensures |r| == |s|
  {
    if s == [] then [] else InsertBy(s[|s| - 1], SortBy(s[..|s| - 1], le), le)
  }

  lemma {:induction false} InsertByPermutation<T>(x: T, s: seq<T>, le: (T, T) -> bool)
    ensures multiset(InsertBy(x, s, le)) == multiset(s) + multiset{x}
  {
    if s != [] && !(le(x, s[0]) && !le(s[0], x)) {
      InsertByPermutation(x, s[1..], le);
      assert s == [s[0]] + s[1..];
    }
  }

  /** An element below every element of a sorted sequence can go first. */
  lemma ConsSorted<T>(h: T, t: seq<T>, le: (T, T) -> bool)
    requires SortedBy(t, le)
    requires forall j :: 0 <= j < |t| ==> le(h, t[j])
    ensures SortedBy([h] + t, le)
  {
    var r := [h] + t;
    forall i, j | 0 <= i < j < |r| ensures le(r[i], r[j]) {
      assert r[j] == t[j - 1];
      if i > 0 {
        assert r[i] == t[i - 1];
      }
    }
  }

  /** The element inserted into a sequence is the only new member. */
  lemma InsertByMember<T>(x: T, s: seq<T>, le: (T, T) -> bool, y: T)
    requires y in InsertBy(x, s, le)
    ensures y == x || y in s
  {
    InsertByPermutation(x, s, le);
    assert y in multiset(InsertBy(x, s, le));
  }

  lemma {:induction false} InsertBySorted<T(!new)>(x: T, s: seq<T>, le: (T, T) -> bool)
    requires TotalPreorder(le)
    requires SortedBy(s, le)
    ensures SortedBy(InsertBy(x, s, le), le)
  {
    if s == [] {
    } else if le(x, s[0]) && !le(s[0], x) {
      forall j | 0 <= j < |s| ensures le(x, s[j]) {
        if j > 0 {
          assert le(x, s[0]) && le(s[0], s[j]);
        }
      }
      ConsSorted(x, s, le);
    } else {
      InsertBySorted(x, s[1..], le);
      var tail := InsertBy(x, s[1..], le);
      assert le(s[0], x);
      forall j | 0 <= j < |tail| ensures le(s[0], tail[j]) {
        InsertByMember(x, s[1..], le, tail[j]);
        if tail[j] != x {
          var k :| 0 <= k < |s[1..]| && s[1..][k] == tail[j];
          assert s[k + 1] == tail[j];
        }
      }
      ConsSorted(s[0], tail, le);
    }
  }

  /** The sort returns a sorted permutation of its input. */
  lemma {:induction false} SortByCorrect<T(!new)>(s: seq<T>, le: (T, T) -> bool)
    requires TotalPreorder(le)
    ensures SortedBy(SortBy(s, le), le)
    ensures multiset(SortBy(s, le)) == multiset(s)
  {
    if s != [] {
      var init := s[..|s| - 1];
      SortByCorrect(init, le);
      InsertBySorted(s[|s| - 1], SortBy(init, le), le);
      InsertByPermutation(s[|s| - 1], SortBy(init, le), le);
      assert s == init + [s[|s| - 1]];
    }
  }

  /** The sort is a permutation whatever the comparison. */
  lemma {:induction false} SortByPermutation<T>(s: seq<T>, le: (T, T) -> bool)
    ensures multiset(SortBy(s, le)) == multiset(s)
  {
    if s != [] {
      var init := s[..|s| - 1];
      SortByPermutation(init, le);
      InsertByPermutation(s[|s| - 1], SortBy(init, le), le);
      assert s == init + [s[|s| - 1]];
    }
  }

  lemma {:induction false} InsertByAgree<T>(x: T, t: seq<T>, le1: (T, T) -> bool, le2: (T, T) -> bool)
    requires forall y :: y in t ==> le1(x, y) == le2(x, y) && le1(y, x) == le2(y, x)
    ensures InsertBy(x, t, le1) == InsertBy(x, t, le2)
  {
    if t != [] {
      assert t[0] in t;
      InsertByAgree(x, t[1..], le1, le2);
    }
  }

  /** The sort only ever compares elements of its input: two comparisons
      that agree on them sort it alike. */
  lemma {:induction false} SortByAgree<T>(s: seq<T>, le1: (T, T) -> bool, le2: (T, T) -> bool)
    requires forall i, j :: 0 <= i < |s| && 0 <= j < |s| ==> le1(s[i], s[j]) == le2(s[i], s[j])
    ensures SortBy(s, le1) == SortBy(s, le2)
  {
    if s != [] {
      var init := s[..|s| - 1];
      var x := s[|s| - 1];
      assert forall i :: 0 <= i < |init| ==> init[i] == s[i];
      SortByAgree(init, le1, le2);
      var t := SortBy(init, le1);
      SortByPermutation(init, le1);
      forall y | y in t ensures le1(x, y) == le2(x, y) && le1(y, x) == le2(y, x) {
        assert y in multiset(init);
        var k :| 0 <= k < |init| && init[k] == y;
        assert s[k] == y;
      }
      InsertByAgree(x, t, le1, le2);
    }
  }

  /** Elements with pairwise different keys occur once each. */
  lemma {:induction false} DistinctKeysOnce<T, K>(a: seq<T>, key: T -> K, x: T)
    requires forall i, j :: 0 <= i < j < |a| ==> key(a[i]) != key(a[j])
    ensures multiset(a)[x] <= 1
  {
    if a != [] {
      var rest := a[1..];
      assert a == [a[0]] + rest;
      DistinctKeysOnce(rest, key, x);
      if a[0] == x {
        forall j | 0 <= j < |rest| ensures rest[j] != x {
          assert rest[j] == a[j + 1];
        }
        assert x !in rest;
      }
    }
  }

  /** Rearranging a sequence keeps its keys pairwise different. */
  lemma PermutationKeepsDistinct<T, K>(a: seq<T>, b: seq<T>, key: T -> K)
    requires multiset(a) == multiset(b)
    requires forall i, j :: 0 <= i < j < |a| ==> key(a[i]) != key(a[j])
    ensures forall i, j :: 0 <= i < j < |b| ==> key(b[i]) != key(b[j])
  {
    forall i, j | 0 <= i < j < |b| ensures key(b[i]) != key(b[j]) {
      if b[i] == b[j] {
        assert b == b[..j] + [b[j]] + b[j + 1..];
        assert b[i] in b[..j];
        assert multiset(b)[b[i]] >= 2;
        DistinctKeysOnce(a, key, b[i]);
      } else {
        assert b[i] in multiset(a) && b[j] in multiset(a);
        var p :| 0 <= p < |a| && a[p] == b[i];
        var q :| 0 <= q < |a| && a[q] == b[j];
        assert p != q;
      }
    }
  }

  /** `x` and `y` compare equal: neither is strictly before the other. */
  predicate Equivalent<T>(le: (T, T) -> bool, x: T, y: T) {
    le(x, y) && le(y, x)
  }

  function EquivalentTo<T>(le: (T, T) -> bool, x: T): T -> bool {
    y => Equivalent(le, x, y)
  }

  /** The elements of `s` that compare equal to `x`, in the order of `s`. */
  function EqualTo<T>(s: seq<T>, le: (T, T) -> bool, x: T): seq<T> {
    Filter(s, EquivalentTo(le, x))
  }

  lemma FilterHead<T>(s: seq<T>, p: T -> bool)
    requires s != []
    ensures Filter(s, p) == (if p(s[0]) then [s[0]] else []) + Filter(s[1..], p)
  {
  }

  lemma FilterCons<T>(a: T, b: seq<T>, p: T -> bool)
    ensures Filter([a] + b, p) == (if p(a) then [a] else []) + Filter(b, p)
  {
    assert ([a] + b)[0] == a && ([a] + b)[1..] == b;
  }

  /** A filter nothing passes keeps nothing. */
  lemma FilterNone<T>(s: seq<T>, p: T -> bool)
    requires forall i :: 0 <= i < |s| ==> !p(s[i])
    ensures Filter(s, p) == []
  {
  }

  /** `z` strictly before the head of a sorted `t` is equivalent to none
      of its elements. */
  lemma BeforeAllEqualToNone<T(!new)>(z: T, t: seq<T>, le: (T, T) -> bool, x: T)
    requires TotalPreorder(le) && SortedBy(t, le)
    requires t != [] && le(z, t[0]) && !le(t[0], z) && Equivalent(le, x, z)
    ensures EqualTo(t, le, x) == []
  {
    forall i | 0 <= i < |t| ensures !EquivalentTo(le, x)(t[i]) {
      assert le(t[0], t[i]);
    }
    FilterNone(t, EquivalentTo(le, x));
  }

  /** Inserting `z` into a sorted sequence puts it after every element that
      compares equal to it. */
  lemma {:induction false} InsertByEqualTo<T(!new)>(z: T, t: seq<T>, le: (T, T) -> bool, x: T)
    requires TotalPreorder(le) && SortedBy(t, le)
    ensures EqualTo(InsertBy(z, t, le), le, x) ==
      EqualTo(t, le, x) + (if Equivalent(le, x, z) then [z] else [])
  {
    var p := EquivalentTo(le, x);
    if t == [] {
      assert InsertBy(z, t, le) == [z] + [];
      FilterCons(z, [], p);
    } else if le(z, t[0]) && !le(t[0], z) {
      FilterCons(z, t, p);
      if Equivalent(le, x, z) {
        BeforeAllEqualToNone(z, t, le, x);
      }
    } else {
      InsertByEqualTo(z, t[1..], le, x);
      InsertByEqualToStep(z, t, le, x);
    }
  }

  lemma InsertByEqualToStep<T>(z: T, t: seq<T>, le: (T, T) -> bool, x: T)
    requires t != [] && !(le(z, t[0]) && !le(t[0], z))
    requires EqualTo(InsertBy(z, t[1..], le), le, x) ==
      EqualTo(t[1..], le, x) + (if Equivalent(le, x, z) then [z] else [])
    ensures EqualTo(InsertBy(z, t, le), le, x) ==
      EqualTo(t, le, x) + (if Equivalent(le, x, z) then [z] else [])
  {
    var p := EquivalentTo(le, x);
    var c := if p(t[0]) then [t[0]] else [];
    var e := if Equivalent(le, x, z) then [z] else [];
    var rest := InsertBy(z, t[1..], le);
    assert InsertBy(z, t, le) == [t[0]] + rest;
    FilterCons(t[0], rest, p);
    var f1, f2, f3 := Filter(InsertBy(z, t, le), p), Filter(rest, p), Filter(t[1..], p);
    assert f1 == c + f2;
    assert f2 == f3 + e;
    FilterHead(t, p);
    assert Filter(t, p) == c + f3;
    ConcatAssoc(c, f3, e);
  }

  lemma ConcatAssoc<T>(a: seq<T>, b: seq<T>, c: seq<T>)
    ensures a + (b + c) == (a + b) + c
  {
  }

  /** The sort is stable: the elements that compare equal to any `x` come
      out in the order they went in. This is what makes it the sort of
      `Array.prototype.sort` and of an ORDER BY whose keys end in a unique
      column. */
  lemma {:induction false} SortByStable<T(!new)>(s: seq<T>, le: (T, T) -> bool, x: T)
    requires TotalPreorder(le)
    ensures EqualTo(SortBy(s, le), le, x) == EqualTo(s, le, x)
  {
    if s != [] {
      var init, z := s[..|s| - 1], s[|s| - 1];
      SortByStable(init, le, x);
      SortByCorrect(init, le);
      InsertByEqualTo(z, SortBy(init, le), le, x);
      SortByStableStep(s, le, x);
    }
  }

  lemma SortByStableStep<T>(s: seq<T>, le: (T, T) -> bool, x: T)
    requires s != []
    requires EqualTo(SortBy(s[..|s| - 1], le), le, x) == EqualTo(s[..|s| - 1], le, x)
    requires EqualTo(InsertBy(s[|s| - 1], SortBy(s[..|s| - 1], le), le), le, x) ==
      EqualTo(SortBy(s[..|s| - 1], le), le, x) + (if Equivalent(le, x, s[|s| - 1]) then [s[|s| - 1]] else [])
    ensures EqualTo(SortBy(s, le), le, x) == EqualTo(s, le, x)
  {
    var init, z := s[..|s| - 1], s[|s| - 1];
    var p := EquivalentTo(le, x);
    assert SortBy(s, le) == InsertBy(z, SortBy(init, le), le);
    FilterLast(s, p);
  }

  lemma FilterLast<T>(s: seq<T>, p: T -> bool)
    requires s != []
    ensures Filter(s, p) == Filter(s[..|s| - 1], p) + (if p(s[|s| - 1]) then [s[|s| - 1]] else [])
  {
    var init, z := s[..|s| - 1], s[|s| - 1];
    assert s == init + [z];
    FilterConcat(init, [z], p);
    FilterCons(z, [], p);
    assert [z] + [] == [z];
  }

  /** Input already in order comes back unchanged: the sort moves an element
      only past elements that are strictly greater. */
  lemma {:induction false} SortBySortedNoop<T>(s: seq<T>, le: (T, T) -> bool)
    requires SortedBy(s, le)
    ensures SortBy(s, le) == s
  {
    if s != [] {
      var init := s[..|s| - 1];
      var x := s[|s| - 1];
      SortBySortedNoop(init, le);
      InsertAtEnd(x, init, le);
      assert s == init + [x];
    }
  }

  lemma {:induction false} InsertAtEnd<T>(x: T, s: seq<T>, le: (T, T) -> bool)
    requires forall i :: 0 <= i < |s| ==> le(s[i], x)
    ensures InsertBy(x, s, le) == s + [x]
  {
    if s != [] {
      InsertAtEnd(x, s[1..], le);
      assert s == [s[0]] + s[1..];
    }
  }
}
