/** Grouping rows by a key, as the report scripts do with a plain object
    keyed by image hash (`receiptsByHash[row.image_hash].push(row)`) and the
    Drive statistics do with an object keyed by MIME type. The keys come out
    in the order of their first occurrence, the order in which `for ... in`
    and `Object.keys` visit the string keys of such an object. */
module Grouping {
  import opened Sequences

  /** The distinct keys of `xs`, in the order of their first occurrence. */
  function Keys<T, K(==)>(xs: seq<T>, key: T -> K): (r: seq<K>)
    ensures forall i :: 0 <= i < |xs| ==> key(xs[i]) in r
    ensures forall i, j :: 0 <= i < j < |r| ==> r[i] != r[j]
    ensures |r| <= |xs|
  {
    if xs == [] then []
    else
      var init := xs[..|xs| - 1];
      var ks := Keys(init, key);
      assert forall i :: 0 <= i < |init| ==> init[i] == xs[i];
      if key(xs[|xs| - 1]) in ks then ks else ks + [key(xs[|xs| - 1])]
  }

  /** Every key listed occurs in some row. */
  lemma {:induction false} KeysOccur<T, K>(xs: seq<T>, key: T -> K, k: K)
    requires k in Keys(xs, key)
    ensures exists i :: 0 <= i < |xs| && key(xs[i]) == k
  {
    var init := xs[..|xs| - 1];
    if k in Keys(init, key) {
      KeysOccur(init, key, k);
      var i :| 0 <= i < |init| && key(init[i]) == k;
      assert xs[i] == init[i];
    } else {
      assert key(xs[|xs| - 1]) == k;
    }
  }

  /** The elements of `xs` whose key lies in `ks`, in input order. */
  function Select<T, K(==)>(xs: seq<T>, key: T -> K, ks: set<K>): (r: seq<T>)
    ensures |r| <= |xs|
    ensures forall i :: 0 <= i < |r| ==> key(r[i]) in ks
  {
    if xs == [] then []
    else
      Select(xs[..|xs| - 1], key, ks) +
      (if key(xs[|xs| - 1]) in ks then [xs[|xs| - 1]] else [])
  }

  /** The group of key `k`: `receiptsByHash[k]` once every row is pushed. */
  function Group<T, K(==)>(xs: seq<T>, key: T -> K, k: K): seq<T> {
    Select(xs, key, {k})
  }

  /** The groups of the keys `ks`, one after the other. */
  function Flatten<T, K(==)>(xs: seq<T>, key: T -> K, ks: seq<K>): seq<T> {
    if ks == [] then [] else Group(xs, key, ks[0]) + Flatten(xs, key, ks[1..])
  }

  /** The groups in key order, as the `for ... in` loops visit them. */
  function Groups<T, K(==)>(xs: seq<T>, key: T -> K): (r: seq<seq<T>>)
    ensures |r| == |Keys(xs, key)|
    ensures forall i :: 0 <= i < |r| ==> r[i] == Group(xs, key, Keys(xs, key)[i])
  {
    var ks := Keys(xs, key);
    seq(|ks|, i requires 0 <= i < |ks| => Group(xs, key, ks[i]))
  }

  /** The set of keys that occur in `xs`. */
  function KeySet<T, K(==)>(xs: seq<T>, key: T -> K): set<K> {
    set i | 0 <= i < |xs| :: key(xs[i])
  }

  // ---------------------------------------------------------------------
  // Filling the object
  // ---------------------------------------------------------------------

  /** The `forEach` that fills the object: a key seen for the first time
      gets an empty array (and its place in the key order), then the row is
      pushed onto the array of its key. */
  method GroupRows<T, K(==,!new)>(xs: seq<T>, key: T -> K) returns (keys: seq<K>, groups: map<K, seq<T>>)
    ensures keys == Keys(xs, key)
    ensures forall k :: k in groups <==> k in keys
    ensures forall k :: k in groups ==> groups[k] == Group(xs, key, k)
  {
    keys, groups := [], map[];
    var i := 0;
    assert xs[..0] == [];
    while i < |xs|
      invariant 0 <= i <= |xs|
      invariant GroupsOf(xs[..i], key, keys, groups)
    {
      var k := key(xs[i]);
      ghost var keys0, groups0 := keys, groups;
      var members := if k in groups then groups[k] else [];
      if k !in groups {
        keys := keys + [k];
      }
      groups := groups[k := members + [xs[i]]];
      GroupsOfStep(xs, i, key, keys0, groups0, keys, groups);
      i := i + 1;
    }
    assert xs[..i] == xs;
  }

  /** The key order and the object of arrays once the rows `fs` are pushed. */
  ghost predicate GroupsOf<T, K(!new)>(fs: seq<T>, key: T -> K, keys: seq<K>, groups: map<K, seq<T>>) {
    && keys == Keys(fs, key)
    && (forall k :: k in groups <==> k in keys)
    && (forall k :: k in groups ==> groups[k] == Group(fs, key, k))
  }

  /** One more row: its key joins the key order if it is new, and the row
      joins the end of its own group. */
  lemma GroupsOfStep<T, K(!new)>(xs: seq<T>, i: nat, key: T -> K,
                                  keys: seq<K>, groups: map<K, seq<T>>,
                                  keys': seq<K>, groups': map<K, seq<T>>)
    requires i < |xs|
    requires GroupsOf(xs[..i], key, keys, groups)
    requires keys' == if key(xs[i]) in groups then keys else keys + [key(xs[i])]
    requires groups' == groups[key(xs[i]) := (if key(xs[i]) in groups then groups[key(xs[i])] else []) + [xs[i]]]
    ensures GroupsOf(xs[..i + 1], key, keys', groups')
  {
    KeysStep(xs, i, key);
    if key(xs[i]) !in groups {
      GroupOfAbsent(xs[..i], key, key(xs[i]));
    }
    GroupsStep(xs, i, key, groups, groups');
  }

  /** One more row adds its key at the end of the key order unless it is
      already there. */
  lemma KeysStep<T, K>(xs: seq<T>, i: nat, key: T -> K)
    requires i < |xs|
    ensures Keys(xs[..i + 1], key) ==
      if key(xs[i]) in Keys(xs[..i], key) then Keys(xs[..i], key) else Keys(xs[..i], key) + [key(xs[i])]
  {
    TakeSnoc(xs, i);
    KeysSnoc(xs[..i], key, xs[i]);
  }

  /** One more row joins the end of the array of its own key. */
  lemma GroupsStep<T, K>(xs: seq<T>, i: nat, key: T -> K, groups: map<K, seq<T>>, groups': map<K, seq<T>>)
    requires i < |xs|
    requires forall k :: k in groups ==> groups[k] == Group(xs[..i], key, k)
    requires key(xs[i]) !in groups ==> Group(xs[..i], key, key(xs[i])) == []
    requires groups' == groups[key(xs[i]) := (if key(xs[i]) in groups then groups[key(xs[i])] else []) + [xs[i]]]
    ensures forall k :: k in groups' ==> groups'[k] == Group(xs[..i + 1], key, k)
  {
    TakeSnoc(xs, i);
    forall k | k in groups' ensures groups'[k] == Group(xs[..i + 1], key, k) {
      GroupSnoc(xs[..i], key, xs[i], k);
    }
  }

  /** One more row adds its key at the end of the key order unless it is
      already there. */
  lemma KeysSnoc<T, K>(fs: seq<T>, key: T -> K, x: T)
    ensures Keys(fs + [x], key) == if key(x) in Keys(fs, key) then Keys(fs, key) else Keys(fs, key) + [key(x)]
  {
    assert (fs + [x])[..|fs|] == fs;
  }

  /** A key that does not occur has an empty group. */
  lemma GroupOfAbsent<T, K>(xs: seq<T>, key: T -> K, k: K)
    requires k !in Keys(xs, key)
    ensures Group(xs, key, k) == []
  {
    forall i | 0 <= i < |xs| ensures key(xs[i]) !in {k} {
      assert key(xs[i]) in Keys(xs, key);
    }
    SelectNone(xs, key, {k});
  }

  // ---------------------------------------------------------------------
  // What the groups are
  // ---------------------------------------------------------------------

  /** Selecting with two disjoint key sets splits the selection with their
      union. */
  lemma {:induction false} SelectUnion<T, K>(xs: seq<T>, key: T -> K, a: set<K>, b: set<K>)
    requires a !! b
    ensures multiset(Select(xs, key, a + b)) == multiset(Select(xs, key, a)) + multiset(Select(xs, key, b))
  {
    if xs != [] {
      SelectUnion(xs[..|xs| - 1], key, a, b);
    }
  }

  /** A selection with a key set covering every element is the whole input. */
  lemma {:induction false} SelectAll<T, K>(xs: seq<T>, key: T -> K, ks: set<K>)
    requires forall i :: 0 <= i < |xs| ==> key(xs[i]) in ks
    ensures Select(xs, key, ks) == xs
  {
    if xs != [] {
      var init := xs[..|xs| - 1];
      assert forall i :: 0 <= i < |init| ==> init[i] == xs[i];
      SelectAll(init, key, ks);
      assert xs == init + [xs[|xs| - 1]];
    }
  }

  /** Selecting with no key that occurs gives nothing. */
  lemma {:induction false} SelectNone<T, K>(xs: seq<T>, key: T -> K, ks: set<K>)
    requires forall i :: 0 <= i < |xs| ==> key(xs[i]) !in ks
    ensures Select(xs, key, ks) == []
  {
    if xs != [] {
      var init := xs[..|xs| - 1];
      assert forall i :: 0 <= i < |init| ==> init[i] == xs[i];
      SelectNone(init, key, ks);
    }
  }

  /** The groups of distinct keys hold the rows with one of those keys. */
  lemma {:induction false} FlattenSelect<T, K>(xs: seq<T>, key: T -> K, ks: seq<K>)
    requires forall i, j :: 0 <= i < j < |ks| ==> ks[i] != ks[j]
    ensures multiset(Flatten(xs, key, ks)) == multiset(Select(xs, key, set k | k in ks))
  {
    if ks != [] {
      var rest := ks[1..];
      FlattenSelect(xs, key, rest);
      assert ks[0] !in rest by {
        forall j | 0 <= j < |rest| ensures rest[j] != ks[0] {
          assert rest[j] == ks[j + 1];
        }
      }
      assert (set k | k in ks) == {ks[0]} + (set k | k in rest);
      SelectUnion(xs, key, {ks[0]}, set k | k in rest);
    }
  }

  /** Taken group after group, the rows are a permutation of the input:
      every row lands in exactly one group. */
  lemma GroupsPermutation<T, K>(xs: seq<T>, key: T -> K)
    ensures multiset(Flatten(xs, key, Keys(xs, key))) == multiset(xs)
  {
    var ks := Keys(xs, key);
    FlattenSelect(xs, key, ks);
    forall i | 0 <= i < |xs| ensures key(xs[i]) in (set k | k in ks) {
      assert key(xs[i]) in ks;
    }
    SelectAll(xs, key, set k | k in ks);
  }

  /** Every selected row is a row of the input. */
  lemma {:induction false} SelectFrom<T, K>(xs: seq<T>, key: T -> K, ks: set<K>)
    ensures multiset(Select(xs, key, ks)) <= multiset(xs)
  {
    if xs != [] {
      var init := xs[..|xs| - 1];
      SelectFrom(init, key, ks);
      assert xs == init + [xs[|xs| - 1]];
    }
  }

  /** Every group is non-empty, so its first row exists. */
  lemma GroupNonEmpty<T, K>(xs: seq<T>, key: T -> K, k: K)
    requires k in Keys(xs, key)
    ensures Group(xs, key, k) != []
    ensures key(Group(xs, key, k)[0]) == k
  {
    KeysOccur(xs, key, k);
    var i :| 0 <= i < |xs| && key(xs[i]) == k;
    GroupHasMember(xs, key, k, i);
  }

  /** The group of every key is non-empty. */
  lemma KeysHaveGroups<T, K>(xs: seq<T>, key: T -> K)
    ensures forall i :: 0 <= i < |Keys(xs, key)| ==> Group(xs, key, Keys(xs, key)[i]) != []
  {
    var ks := Keys(xs, key);
    forall i | 0 <= i < |ks| ensures Group(xs, key, ks[i]) != [] {
      GroupNonEmpty(xs, key, ks[i]);
    }
  }

  lemma {:induction false} GroupHasMember<T, K>(xs: seq<T>, key: T -> K, k: K, i: nat)
    requires i < |xs| && key(xs[i]) == k
    ensures Group(xs, key, k) != []
  {
    if i < |xs| - 1 {
      var init := xs[..|xs| - 1];
      assert init[i] == xs[i];
      GroupHasMember(init, key, k, i);
    }
  }

  /** A sequence without repetitions has as many elements as its set. */
  lemma {:induction false} DistinctCardinality<K>(ks: seq<K>)
    requires forall i, j :: 0 <= i < j < |ks| ==> ks[i] != ks[j]
    ensures |set k | k in ks| == |ks|
  {
    if ks != [] {
      var rest := ks[1..];
      DistinctCardinality(rest);
      assert ks[0] !in rest by {
        forall j | 0 <= j < |rest| ensures rest[j] != ks[0] {
          assert rest[j] == ks[j + 1];
        }
      }
      assert (set k | k in ks) == {ks[0]} + (set k | k in rest);
    }
  }

  /** The number of groups is the number of distinct keys among the rows
      (`Object.keys(receiptsByHash).length`). */
  lemma GroupCount<T, K>(xs: seq<T>, key: T -> K)
    ensures |Keys(xs, key)| == |KeySet(xs, key)|
  {
    var ks := Keys(xs, key);
    DistinctCardinality(ks);
    assert (set k | k in ks) == KeySet(xs, key) by {
      forall k | k in KeySet(xs, key) ensures k in ks {
        var i :| 0 <= i < |xs| && key(xs[i]) == k;
      }
      forall k | k in ks ensures k in KeySet(xs, key) {
        KeysOccur(xs, key, k);
      }
    }
  }

  /** The sum over the groups of their sums is the sum over the rows. */
  lemma GroupsSum<T, K>(xs: seq<T>, key: T -> K, f: T -> int)
    ensures SumOf(Flatten(xs, key, Keys(xs, key)), f) == SumOf(xs, f)
  {
    GroupsPermutation(xs, key);
    SumOfPermutation(Flatten(xs, key, Keys(xs, key)), xs, f);
  }

  /** One more row with a key not seen before adds that key at the end, a
      group of that row alone, and leaves every other group as it was. */
  lemma GroupsAppendNew<T, K>(xs: seq<T>, key: T -> K, x: T)
    requires key(x) !in Keys(xs, key)
    ensures Keys(xs + [x], key) == Keys(xs, key) + [key(x)]
    ensures Group(xs + [x], key, key(x)) == [x]
    ensures forall k :: k != key(x) ==> Group(xs + [x], key, k) == Group(xs, key, k)
  {
    var ys := xs + [x];
    assert ys[..|ys| - 1] == xs && ys[|ys| - 1] == x;
    forall i | 0 <= i < |xs| ensures key(xs[i]) !in {key(x)} {
      assert key(xs[i]) in Keys(xs, key);
    }
    SelectNone(xs, key, {key(x)});
    assert Group(ys, key, key(x)) == [] + [x];
    forall k | k != key(x) ensures Group(ys, key, k) == Group(xs, key, k) {
      assert Select(ys, key, {k}) == Select(xs, key, {k}) + [];
    }
  }

  lemma {:induction false} FlattenUnchanged<T, K>(xs: seq<T>, ys: seq<T>, key: T -> K, ks: seq<K>)
    requires forall k :: k in ks ==> Group(ys, key, k) == Group(xs, key, k)
    ensures Flatten(ys, key, ks) == Flatten(xs, key, ks)
  {
    if ks != [] {
      FlattenUnchanged(xs, ys, key, ks[1..]);
    }
  }

  /** No two rows share a key. */
  predicate DistinctKeys<T, K(==)>(xs: seq<T>, key: T -> K) {
    forall i, j :: 0 <= i < j < |xs| ==> key(xs[i]) != key(xs[j])
  }

  /** Dropping the last row keeps the keys distinct, and the last row's key
      is none of the others'. */
  lemma DistinctInit<T, K>(xs: seq<T>, key: T -> K)
    requires xs != [] && DistinctKeys(xs, key)
    ensures DistinctKeys(xs[..|xs| - 1], key)
    ensures forall i :: 0 <= i < |xs| - 1 ==> key(xs[i]) != key(xs[|xs| - 1])
  {
    var init := xs[..|xs| - 1];
    assert forall i :: 0 <= i < |init| ==> init[i] == xs[i];
  }

  /** When no two rows share a key, the key order is the rows' own order. */
  lemma {:induction false} KeysOfDistinct<T, K>(xs: seq<T>, key: T -> K)
    requires DistinctKeys(xs, key)
    ensures |Keys(xs, key)| == |xs|
    ensures forall i :: 0 <= i < |xs| ==> Keys(xs, key)[i] == key(xs[i])
  {
    if xs != [] {
      var init, x := xs[..|xs| - 1], xs[|xs| - 1];
      DistinctInit(xs, key);
      KeysOfDistinct(init, key);
      assert key(x) !in Keys(init, key);
      assert xs == init + [x];
      KeysSnoc(init, key, x);
    }
  }

  /** When no two rows share a key, every group is one row and the groups,
      in key order, are the input itself. */
  lemma GroupsOfDistinct<T, K>(xs: seq<T>, key: T -> K)
    requires DistinctKeys(xs, key)
    ensures |Keys(xs, key)| == |xs|
    ensures forall i :: 0 <= i < |xs| ==> Keys(xs, key)[i] == key(xs[i])
    ensures Flatten(xs, key, Keys(xs, key)) == xs
  {
    KeysOfDistinct(xs, key);
    FlattenOfDistinct(xs, key);
  }

  lemma {:induction false} FlattenOfDistinct<T, K>(xs: seq<T>, key: T -> K)
    requires DistinctKeys(xs, key)
    ensures Flatten(xs, key, Keys(xs, key)) == xs
  {
    if xs != [] {
      var init, x := xs[..|xs| - 1], xs[|xs| - 1];
      DistinctInit(xs, key);
      FlattenOfDistinct(init, key);
      KeysOfDistinct(init, key);
      assert key(x) !in Keys(init, key);
      assert xs == init + [x];
      GroupsAppendNew(init, key, x);
      var ks := Keys(init, key);
      FlattenUnchanged(init, xs, key, ks);
      FlattenSnoc(xs, key, ks, key(x));
    }
  }

  /** When no two rows share a key, each row is a group of its own. */
  lemma {:induction false} SingletonGroups<T, K>(xs: seq<T>, key: T -> K)
    requires DistinctKeys(xs, key)
    ensures forall i :: 0 <= i < |xs| ==> Group(xs, key, key(xs[i])) == [xs[i]]
  {
    if xs != [] {
      var init, x := xs[..|xs| - 1], xs[|xs| - 1];
      DistinctInit(xs, key);
      SingletonGroups(init, key);
      KeysOfDistinct(init, key);
      assert key(x) !in Keys(init, key);
      assert xs == init + [x];
      GroupsAppendNew(init, key, x);
      forall i | 0 <= i < |init| ensures Group(xs, key, key(xs[i])) == [xs[i]] {
        assert xs[i] == init[i];
      }
    }
  }

  lemma {:induction false} FlattenSnoc<T, K>(xs: seq<T>, key: T -> K, ks: seq<K>, k: K)
    ensures Flatten(xs, key, ks + [k]) == Flatten(xs, key, ks) + Group(xs, key, k)
  {
    if ks == [] {
      assert ks + [k] == [k];
    } else {
      assert (ks + [k])[1..] == ks[1..] + [k];
      FlattenSnoc(xs, key, ks[1..], k);
    }
  }

  /** One more row adds its key to the key set. */
  lemma KeySetStep<T, K>(xs: seq<T>, key: T -> K, i: nat)
    requires i < |xs|
    ensures KeySet(xs[..i + 1], key) == KeySet(xs[..i], key) + {key(xs[i])}
  {
    var before, after := xs[..i], xs[..i + 1];
    forall k | k in KeySet(after, key) ensures k in KeySet(before, key) + {key(xs[i])} {
      var j :| 0 <= j < |after| && key(after[j]) == k;
      if j < i { assert before[j] == after[j]; }
    }
    forall k | k in KeySet(before, key) ensures k in KeySet(after, key) {
      var j :| 0 <= j < |before| && key(before[j]) == k;
      assert after[j] == before[j];
    }
    assert key(after[i]) in KeySet(after, key);
  }

  /** The size of the groups of `ks` put together. */
  lemma {:induction false} FlattenLength<T, K>(xs: seq<T>, key: T -> K, ks: seq<K>)
    ensures |Flatten(xs, key, ks)| == SumOf(ks, k => |Group(xs, key, k)|)
  {
    if ks != [] {
      FlattenLength(xs, key, ks[1..]);
    }
  }

  /** Every row is counted in exactly one group: the group sizes add up to
      the number of rows. */
  lemma GroupSizesAddUp<T, K>(xs: seq<T>, key: T -> K)
    ensures SumOf(Keys(xs, key), k => |Group(xs, key, k)|) == |xs|
  {
    GroupsPermutation(xs, key);
    FlattenLength(xs, key, Keys(xs, key));
    assert |multiset(Flatten(xs, key, Keys(xs, key)))| == |multiset(xs)|;
  }

  /** Every row of the groups of `ks` has one of the keys `ks`. */
  lemma {:induction false} FlattenKeys<T, K>(xs: seq<T>, key: T -> K, ks: seq<K>)
    ensures forall i :: 0 <= i < |Flatten(xs, key, ks)| ==> key(Flatten(xs, key, ks)[i]) in ks
  {
    if ks != [] {
      FlattenKeys(xs, key, ks[1..]);
      var g, rest := Group(xs, key, ks[0]), Flatten(xs, key, ks[1..]);
      forall i | 0 <= i < |g + rest| ensures key((g + rest)[i]) in ks {
        if i < |g| {
          assert key(g[i]) in {ks[0]};
        } else {
          assert (g + rest)[i] == rest[i - |g|];
        }
      }
    }
  }

  /** Rows of one key stand together: a row between two rows of a key has
      that key too. */
  predicate Contiguous<T, K(==)>(f: seq<T>, key: T -> K) {
    forall i, j, k :: 0 <= i < j < k < |f| && key(f[i]) == key(f[k]) ==> key(f[j]) == key(f[i])
  }

  /** The groups of distinct keys, put one after the other, keep the rows
      of each key together: a row between two rows of one key has that
      key too. */
  lemma {:induction false} FlattenContiguous<T, K>(xs: seq<T>, key: T -> K, ks: seq<K>)
    requires forall i, j :: 0 <= i < j < |ks| ==> ks[i] != ks[j]
    ensures Contiguous(Flatten(xs, key, ks), key)
  {
    if ks != [] {
      var g, rest := Group(xs, key, ks[0]), Flatten(xs, key, ks[1..]);
      FlattenContiguous(xs, key, ks[1..]);
      FlattenKeys(xs, key, ks[1..]);
      forall n | 0 <= n < |rest| ensures key(rest[n]) != ks[0] {
        var m :| 0 <= m < |ks[1..]| && ks[1..][m] == key(rest[n]);
        assert ks[m + 1] == key(rest[n]);
      }
      forall i | 0 <= i < |g| ensures key(g[i]) == ks[0] {
        assert key(g[i]) in {ks[0]};
      }
      BlockThenContiguous(g, rest, key, ks[0]);
    }
  }

  /** A block of rows of one key followed by contiguous rows none of which
      has that key is contiguous. */
  lemma BlockThenContiguous<T, K>(g: seq<T>, rest: seq<T>, key: T -> K, k0: K)
    requires forall i :: 0 <= i < |g| ==> key(g[i]) == k0
    requires forall n :: 0 <= n < |rest| ==> key(rest[n]) != k0
    requires Contiguous(rest, key)
    ensures Contiguous(g + rest, key)
  {
    var f := g + rest;
    forall i, j, k | 0 <= i < j < k < |f| && key(f[i]) == key(f[k]) ensures key(f[j]) == key(f[i]) {
      if |g| <= i {
        assert f[i] == rest[i - |g|] && f[j] == rest[j - |g|] && f[k] == rest[k - |g|];
      }
    }
  }

  /** One more row joins the end of its own group. */
  lemma GroupSnoc<T, K>(xs: seq<T>, key: T -> K, x: T, k: K)
    ensures Group(xs + [x], key, k) == Group(xs, key, k) + (if key(x) == k then [x] else [])
  {
    assert (xs + [x])[..|xs|] == xs;
  }

  /** One more row adds its key to the key set. */
  lemma KeySetSnoc<T, K>(xs: seq<T>, key: T -> K, x: T)
    ensures KeySet(xs + [x], key) == KeySet(xs, key) + {key(x)}
  {
    assert (xs + [x])[..|xs|] == xs;
    KeySetStep(xs + [x], key, |xs|);
  }

  /** A key no row has has an empty group. */
  lemma GroupOfUnseen<T, K>(xs: seq<T>, key: T -> K, k: K)
    requires k !in KeySet(xs, key)
    ensures Group(xs, key, k) == []
  {
    forall j | 0 <= j < |xs| ensures key(xs[j]) !in {k} {
      assert key(xs[j]) in KeySet(xs, key);
    }
    SelectNone(xs, key, {k});
  }
}
