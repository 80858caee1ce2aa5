/** The order-preserving `groupBy(key, collection)` of scripts/deps.js: a
    reduce that appends each entry to the bucket of its key, creating the
    bucket on the key's first occurrence, followed by `Object.entries`, which
    lists the buckets in the order their keys were first seen. */
module Grouping {

  /** The distinct keys of `xs`, in order of first occurrence. */
  function Keys<T, K(==)>(key: T -> K, xs: seq<T>): seq<K>
    decreases |xs|
  {
    if xs == [] then []
    else
      var ks := Keys(key, xs[..|xs| - 1]);
      var k := key(xs[|xs| - 1]);
      if k in ks then ks else ks + [k]
  }

  /** The entries of `xs` whose key is `k`, in their order in `xs`. */
  function Filter<T, K(==)>(key: T -> K, xs: seq<T>, k: K): seq<T>
    decreases |xs|
  {
    if xs == [] then []
    else Filter(key, xs[..|xs| - 1], k) + (if key(xs[|xs| - 1]) == k then [xs[|xs| - 1]] else [])
  }

  /** One group per key of `ks`, holding the entries of `xs` with that key. */
  function GroupsFor<T, K(==)>(key: T -> K, xs: seq<T>, ks: seq<K>): seq<(K, seq<T>)>
    decreases |ks|
  {
    if ks == [] then []
    else GroupsFor(key, xs, ks[..|ks| - 1]) + [(ks[|ks| - 1], Filter(key, xs, ks[|ks| - 1]))]
  }

  /** What `groupBy` returns: the entries of `xs` gathered by key. */
  function Grouped<T, K(==)>(key: T -> K, xs: seq<T>): seq<(K, seq<T>)> {
    GroupsFor(key, xs, Keys(key, xs))
  }

  /** The groups' entries, one group after the other. */
  function Flatten<K, T>(groups: seq<(K, seq<T>)>): seq<T>
    decreases |groups|
  {
    if groups == [] then [] else Flatten(groups[..|groups| - 1]) + groups[|groups| - 1].1
  }

  /** `groupBy` as the source runs it: a reduce into buckets, then `Object.entries`. */
  method GroupBy<T, K(==)>(key: T -> K, collection: seq<T>) returns (groups: seq<(K, seq<T>)>)
    ensures groups == Grouped(key, collection)
  {
    var order: seq<K> := [];
    var buckets: map<K, seq<T>> := map[];
    for i := 0 to |collection|
      invariant order == Keys(key, collection[..i])
      invariant forall k :: k in buckets <==> k in order
      invariant forall k :: k in buckets ==> buckets[k] == Filter(key, collection[..i], k)
    {
      var entry := collection[i];
      var prop := key(entry);
      assert collection[..i + 1][..i] == collection[..i];
      if prop !in buckets {
        KeysComplete(key, collection[..i], prop);
        FilterAbsent(key, collection[..i], prop);
        order := order + [prop];
        buckets := buckets[prop := []];
      }
      buckets := buckets[prop := buckets[prop] + [entry]];
    }
    assert collection[..|collection|] == collection;
    groups := [];
    for j := 0 to |order|
      invariant groups == GroupsFor(key, collection, order[..j])
    {
      assert order[..j + 1][..j] == order[..j];
      groups := groups + [(order[j], buckets[order[j]])];
    }
    assert order[..|order|] == order;
  }

  // ---------------------------------------------------------------------
  // Properties of the grouping

  /** A group only holds entries whose key is the group's key. */
  lemma {:induction false} FilterAgrees<T, K>(key: T -> K, xs: seq<T>, k: K)
    ensures forall y :: y in Filter(key, xs, k) ==> key(y) == k
    decreases |xs|
  {
    if xs != [] {
      FilterAgrees(key, xs[..|xs| - 1], k);
    }
  }

  /** Filtering distributes over concatenation: the entries of a group keep
      the relative order they had in the input. */
  lemma {:induction false} FilterAppend<T, K>(key: T -> K, a: seq<T>, b: seq<T>, k: K)
    ensures Filter(key, a + b, k) == Filter(key, a, k) + Filter(key, b, k)
    decreases |b|
  {
    if b != [] {
      var b' := b[..|b| - 1];
      assert (a + b)[..|a + b| - 1] == a + b';
      FilterAppend(key, a, b', k);
    } else {
      assert a + b == a;
    }
  }

  /** A key no entry has selects nothing. */
  lemma {:induction false} FilterAbsent<T, K>(key: T -> K, xs: seq<T>, k: K)
    requires forall i :: 0 <= i < |xs| ==> key(xs[i]) != k
    ensures Filter(key, xs, k) == []
    decreases |xs|
  {
    if xs != [] {
      FilterAbsent(key, xs[..|xs| - 1], k);
    }
  }

  /** A key is listed exactly when some entry has it. */
  lemma {:induction false} KeysComplete<T, K>(key: T -> K, xs: seq<T>, k: K)
    ensures k in Keys(key, xs) <==> exists i :: 0 <= i < |xs| && key(xs[i]) == k
    decreases |xs|
  {
    if xs != [] {
      var init := xs[..|xs| - 1];
      KeysComplete(key, init, k);
      if k in Keys(key, init) {
        var i :| 0 <= i < |init| && key(init[i]) == k;
        assert key(xs[i]) == k;
      }
      if exists i :: 0 <= i < |xs| && key(xs[i]) == k {
        var i :| 0 <= i < |xs| && key(xs[i]) == k;
        if i < |init| {
          assert key(init[i]) == k;
        }
      }
    }
  }

  /** No key is listed twice. */
  lemma {:induction false} KeysDistinct<T, K>(key: T -> K, xs: seq<T>)
    ensures forall i, j :: 0 <= i < j < |Keys(key, xs)| ==> Keys(key, xs)[i] != Keys(key, xs)[j]
    decreases |xs|
  {
    if xs != [] {
      KeysDistinct(key, xs[..|xs| - 1]);
    }
  }

  /** The position of the first entry with key `k`. */
  function FirstIndex<T, K(==)>(key: T -> K, xs: seq<T>, k: K): (i: nat)
    requires exists j :: 0 <= j < |xs| && key(xs[j]) == k
    ensures i < |xs| && key(xs[i]) == k
    ensures forall j :: 0 <= j < i ==> key(xs[j]) != k
    decreases |xs|
  {
    if key(xs[0]) == k then 0
    else
      var j :| 0 <= j < |xs| && key(xs[j]) == k;
      assert key(xs[1..][j - 1]) == k;
      1 + FirstIndex(key, xs[1..], k)
  }

  lemma FirstIndexInPrefix<T, K>(key: T -> K, xs: seq<T>, n: nat, k: K)
    requires n <= |xs|
    requires exists j :: 0 <= j < n && key(xs[..n][j]) == k
    ensures exists j :: 0 <= j < |xs| && key(xs[j]) == k
    ensures FirstIndex(key, xs, k) == FirstIndex(key, xs[..n], k)
  {
    var j :| 0 <= j < n && key(xs[..n][j]) == k;
    assert key(xs[j]) == k;
    var a, b := FirstIndex(key, xs, k), FirstIndex(key, xs[..n], k);
    assert key(xs[b]) == k;
  }

  /** Keys are listed in the order of their first occurrence. */
  lemma {:induction false} KeysInFirstOccurrenceOrder<T, K>(key: T -> K, xs: seq<T>, i: nat, j: nat)
    requires i < j < |Keys(key, xs)|
    ensures exists p :: 0 <= p < |xs| && key(xs[p]) == Keys(key, xs)[i]
    ensures exists p :: 0 <= p < |xs| && key(xs[p]) == Keys(key, xs)[j]
    ensures FirstIndex(key, xs, Keys(key, xs)[i]) < FirstIndex(key, xs, Keys(key, xs)[j])
    decreases |xs|
  {
    var ks := Keys(key, xs);
    var init := xs[..|xs| - 1];
    var kInit := Keys(key, init);
    KeysComplete(key, xs, ks[i]);
    KeysComplete(key, xs, ks[j]);
    KeysComplete(key, init, ks[i]);
    assert ks[i] in kInit;
    assert forall p :: 0 <= p < |init| ==> init[p] == xs[..|init|][p];
    FirstIndexInPrefix(key, xs, |init|, ks[i]);
    if j < |kInit| {
      KeysInFirstOccurrenceOrder(key, init, i, j);
      KeysComplete(key, init, ks[j]);
      FirstIndexInPrefix(key, xs, |init|, ks[j]);
    } else {
      assert ks[j] == key(xs[|xs| - 1]) && ks[j] !in kInit;
      KeysComplete(key, init, ks[j]);
      assert FirstIndex(key, xs, ks[j]) == |xs| - 1;
    }
  }

  /** The entries of `xs` whose key is in `s`. */
  function FilterIn<T, K>(key: T -> K, xs: seq<T>, s: set<K>): seq<T>
    decreases |xs|
  {
    if xs == [] then []
    else FilterIn(key, xs[..|xs| - 1], s) + (if key(xs[|xs| - 1]) in s then [xs[|xs| - 1]] else [])
  }

  lemma {:induction false} FilterInEmpty<T, K>(key: T -> K, xs: seq<T>)
    ensures FilterIn(key, xs, {}) == []
    decreases |xs|
  {
    if xs != [] {
      FilterInEmpty(key, xs[..|xs| - 1]);
    }
  }

  lemma {:induction false} FilterInAddKey<T, K>(key: T -> K, xs: seq<T>, s: set<K>, k: K)
    requires k !in s
    ensures multiset(FilterIn(key, xs, s + {k})) == multiset(FilterIn(key, xs, s)) + multiset(Filter(key, xs, k))
    decreases |xs|
  {
    if xs != [] {
      FilterInAddKey(key, xs[..|xs| - 1], s, k);
    }
  }

  lemma {:induction false} FilterInAll<T, K>(key: T -> K, xs: seq<T>, s: set<K>)
    requires forall i :: 0 <= i < |xs| ==> key(xs[i]) in s
    ensures FilterIn(key, xs, s) == xs
    decreases |xs|
  {
    if xs != [] {
      FilterInAll(key, xs[..|xs| - 1], s);
    }
  }

  lemma {:induction false} FlattenGroupsFor<T, K>(key: T -> K, xs: seq<T>, ks: seq<K>)
    requires forall i, j :: 0 <= i < j < |ks| ==> ks[i] != ks[j]
    ensures multiset(Flatten(GroupsFor(key, xs, ks))) == multiset(FilterIn(key, xs, set k | k in ks))
    decreases |ks|
  {
    if ks == [] {
      assert (set k | k in ks) == {};
      FilterInEmpty(key, xs);
    } else {
      var init := ks[..|ks| - 1];
      var last := ks[|ks| - 1];
      var g := GroupsFor(key, xs, ks);
      assert g[..|g| - 1] == GroupsFor(key, xs, init);
      FlattenGroupsFor(key, xs, init);
      assert (set k | k in ks) == (set k | k in init) + {last};
      assert last !in init;
      FilterInAddKey(key, xs, (set k | k in init), last);
    }
  }

  /** The groups partition the input: together they hold exactly its entries. */
  lemma GroupedPartitions<T, K>(key: T -> K, xs: seq<T>)
    ensures multiset(Flatten(Grouped(key, xs))) == multiset(xs)
  {
    var ks := Keys(key, xs);
    KeysDistinct(key, xs);
    FlattenGroupsFor(key, xs, ks);
    forall i | 0 <= i < |xs|
      ensures key(xs[i]) in (set k | k in ks)
    {
      KeysComplete(key, xs, key(xs[i]));
    }
    FilterInAll(key, xs, (set k | k in ks));
  }

  /** Group `i` is keyed by the `i`-th first-seen key and holds its entries. */
  lemma {:induction false} GroupsForAt<T, K>(key: T -> K, xs: seq<T>, ks: seq<K>, i: nat)
    requires i < |ks|
    ensures |GroupsFor(key, xs, ks)| == |ks|
    ensures GroupsFor(key, xs, ks)[i] == (ks[i], Filter(key, xs, ks[i]))
    decreases |ks|
  {
    if i < |ks| - 1 {
      GroupsForAt(key, xs, ks[..|ks| - 1], i);
    } else if |ks| > 1 {
      GroupsForAt(key, xs, ks[..|ks| - 1], 0);
    }
  }

  lemma {:induction false} FilterNonEmpty<T, K>(key: T -> K, xs: seq<T>, k: K)
    requires k in Keys(key, xs)
    ensures Filter(key, xs, k) != []
    decreases |xs|
  {
    if key(xs[|xs| - 1]) != k {
      FilterNonEmpty(key, xs[..|xs| - 1], k);
    }
  }

  predicate NonEmptyGroups<K, T>(gs: seq<(K, seq<T>)>) {
    forall i :: 0 <= i < |gs| ==> gs[i].1 != []
  }

  /** No group is empty: each was created for an entry that went into it. */
  lemma GroupedNonEmpty<T, K>(key: T -> K, xs: seq<T>)
    ensures NonEmptyGroups(Grouped(key, xs))
  {
    GroupedShape(key, xs);
  }

  /** Everything a caller of `groupBy` relies on: each group is keyed by a
      distinct first-seen key, is non-empty, and holds only and all of that
      key's entries in input order. */
  lemma GroupedShape<T, K>(key: T -> K, xs: seq<T>)
    ensures |Grouped(key, xs)| == |Keys(key, xs)|
    ensures forall i :: 0 <= i < |Grouped(key, xs)| ==>
      && Grouped(key, xs)[i].0 == Keys(key, xs)[i]
      && Grouped(key, xs)[i].1 == Filter(key, xs, Keys(key, xs)[i])
      && Grouped(key, xs)[i].1 != []
      && (forall y :: y in Grouped(key, xs)[i].1 ==> key(y) == Grouped(key, xs)[i].0)
  {
    var ks := Keys(key, xs);
    if ks != [] {
      GroupsForAt(key, xs, ks, 0);
    }
    forall i | 0 <= i < |ks|
      ensures Grouped(key, xs)[i] == (ks[i], Filter(key, xs, ks[i]))
      ensures Filter(key, xs, ks[i]) != []
      ensures forall y :: y in Filter(key, xs, ks[i]) ==> key(y) == ks[i]
    {
      GroupsForAt(key, xs, ks, i);
      FilterNonEmpty(key, xs, ks[i]);
      FilterAgrees(key, xs, ks[i]);
    }
  }

  /** An entry with key `k` is kept by the filter for `k`, and the filter keeps nothing else of `xs`. */
  lemma {:induction false} FilterMembers<T, K>(key: T -> K, xs: seq<T>, k: K, y: T)
    ensures y in Filter(key, xs, k) <==> y in xs && key(y) == k
    decreases |xs|
  {
    if xs != [] {
      var init := xs[..|xs| - 1];
      FilterMembers(key, init, k, y);
      assert xs == init + [xs[|xs| - 1]];
    }
  }

  /** An entry is in the output of `groupBy` exactly when it is in its input,
      and then it sits in the group of its own key. */
  lemma GroupedMembers<T, K>(key: T -> K, xs: seq<T>, y: T)
    ensures y in xs <==> exists i :: 0 <= i < |Grouped(key, xs)| && y in Grouped(key, xs)[i].1
    ensures forall i :: 0 <= i < |Grouped(key, xs)| && y in Grouped(key, xs)[i].1 ==> Grouped(key, xs)[i].0 == key(y)
  {
    GroupedShape(key, xs);
    var ks := Keys(key, xs);
    forall i | 0 <= i < |ks| {
      FilterMembers(key, xs, ks[i], y);
    }
    if y in xs {
      KeysComplete(key, xs, key(y));
      var i :| 0 <= i < |ks| && ks[i] == key(y);
      assert y in Grouped(key, xs)[i].1;
    }
  }
}
