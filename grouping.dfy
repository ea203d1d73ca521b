/** LINQ `GroupBy`: groups in order of the first appearance of their key, each
    group holding its elements in their original order. */
module Grouping {

  /** The distinct keys of `xs`, in order of first appearance. */
  function Keys<T, K(==)>(xs: seq<T>, key: T -> K): seq<K>
    decreases |xs|
  {
    if xs == [] then []
    else
      var ks := Keys(xs[..|xs| - 1], key);
      if key(xs[|xs| - 1]) in ks then ks else ks + [key(xs[|xs| - 1])]
  }

  /** The keys are distinct, and they are exactly the keys of the elements. */
  lemma {:induction false} KeysExactly<T, K>(xs: seq<T>, key: T -> K)
    ensures var ks := Keys(xs, key);
      (forall i, j :: 0 <= i < j < |ks| ==> ks[i] != ks[j])
      && (forall k | k in ks :: exists x :: x in xs && key(x) == k)
      && (forall x | x in xs :: key(x) in ks)
      && |ks| <= |xs|
    decreases |xs|
  {
    if xs != [] {
      var init, last := xs[..|xs| - 1], xs[|xs| - 1];
      assert xs == init + [last];
      KeysExactly(init, key);
    }
  }

  /** The elements of `xs` whose key is `k`, in order. */
  function Members<T, K(==)>(xs: seq<T>, key: T -> K, k: K): seq<T>
    decreases |xs|
  {
    if xs == [] then []
    else Members(xs[..|xs| - 1], key, k) + (if key(xs[|xs| - 1]) == k then [xs[|xs| - 1]] else [])
  }

  /** A group holds exactly the elements with its key, each as often as it occurs in
      `xs` and in the order of `xs` (the group of a prefix is a prefix of the group),
      and is empty exactly when the key does not occur. */
  lemma {:induction false} MembersExactly<T, K>(xs: seq<T>, key: T -> K, k: K)
    ensures var ms := Members(xs, key, k);
      (forall x | x in ms :: x in xs && key(x) == k)
      && (forall x | x in xs && key(x) == k :: x in ms)
      && (forall x :: multiset(ms)[x] == if key(x) == k then multiset(xs)[x] else 0)
      && (forall n | 0 <= n <= |xs| :: Members(xs[..n], key, k) <= ms)
      && (ms == [] <==> k !in Keys(xs, key))
  {
    MembersIn(xs, key, k);
    MembersCount(xs, key, k);
    MembersKeepOrder(xs, key, k);
  }

  /** Membership and emptiness of a group. */
  lemma {:induction false} MembersIn<T, K>(xs: seq<T>, key: T -> K, k: K)
    ensures var ms := Members(xs, key, k);
      (forall x | x in ms :: x in xs && key(x) == k)
      && (forall x | x in xs && key(x) == k :: x in ms)
      && (ms == [] <==> k !in Keys(xs, key))
    decreases |xs|
  {
    if xs != [] {
      var init, last := xs[..|xs| - 1], xs[|xs| - 1];
      assert xs == init + [last];
      MembersIn(init, key, k);
      KeysExactly(init, key);
    }
  }

  /** How often each element occurs in a group. */
  lemma {:induction false} MembersCount<T, K>(xs: seq<T>, key: T -> K, k: K)
    ensures forall x :: multiset(Members(xs, key, k))[x] == if key(x) == k then multiset(xs)[x] else 0
    decreases |xs|
  {
    if xs != [] {
      var init, last := xs[..|xs| - 1], xs[|xs| - 1];
      assert xs == init + [last];
      MembersCount(init, key, k);
    }
  }

  /** A group keeps the order of the input. */
  lemma {:induction false} MembersKeepOrder<T, K>(xs: seq<T>, key: T -> K, k: K)
    ensures forall n | 0 <= n <= |xs| :: Members(xs[..n], key, k) <= Members(xs, key, k)
    decreases |xs|
  {
    if xs != [] {
      var init, last := xs[..|xs| - 1], xs[|xs| - 1];
      assert xs == init + [last];
      MembersKeepOrder(init, key, k);
      forall n | 0 <= n <= |xs|
        ensures Members(xs[..n], key, k) <= Members(xs, key, k)
      {
        if n < |xs| {
          assert xs[..n] == init[..n];
        } else {
          assert xs[..n] == xs;
        }
      }
    }
  }

  /** `xs.GroupBy(key)`: one group per key of `Keys(xs, key)`. */
  function GroupBy<T, K(==)>(xs: seq<T>, key: T -> K): (gs: seq<seq<T>>)
    ensures |gs| == |Keys(xs, key)|
    ensures forall i :: 0 <= i < |gs| ==> gs[i] == Members(xs, key, Keys(xs, key)[i])
  {
    var ks := Keys(xs, key);
    seq(|ks|, i requires 0 <= i < |ks| => Members(xs, key, ks[i]))
  }

  /** The groups partition `xs`: none is empty, all members of a group are elements
      of `xs` sharing the group's key, different groups have different keys, and
      every element lies in some group. */
  lemma GroupsPartition<T, K>(xs: seq<T>, key: T -> K)
    ensures var gs := GroupBy(xs, key);
      (forall i :: 0 <= i < |gs| ==> gs[i] != [])
      && (forall i, x :: 0 <= i < |gs| && x in gs[i] ==> x in xs && key(x) == key(gs[i][0]))
      && (forall i, j :: 0 <= i < j < |gs| ==> key(gs[i][0]) != key(gs[j][0]))
      && (forall x | x in xs :: exists i :: 0 <= i < |gs| && x in gs[i])
  {
    var gs, ks := GroupBy(xs, key), Keys(xs, key);
    KeysExactly(xs, key);
    forall i | 0 <= i < |gs|
      ensures gs[i] != [] && key(gs[i][0]) == ks[i]
      ensures forall x | x in gs[i] :: x in xs && key(x) == ks[i]
    {
      MembersExactly(xs, key, ks[i]);
    }
    forall x | x in xs
      ensures exists i :: 0 <= i < |gs| && x in gs[i]
    {
      var i :| 0 <= i < |ks| && ks[i] == key(x);
      MembersExactly(xs, key, ks[i]);
      assert x in gs[i];
    }
  }

  /** The position of the first element of `xs` whose key is `k`. */
  function FirstIndex<T, K(==)>(xs: seq<T>, key: T -> K, k: K): (n: nat)
    requires k in Keys(xs, key)
    ensures n < |xs| && key(xs[n]) == k
    ensures forall j :: 0 <= j < n ==> key(xs[j]) != k
    decreases |xs|
  {
    var init := xs[..|xs| - 1];
    assert xs == init + [xs[|xs| - 1]];
    if k in Keys(init, key) then FirstIndex(init, key, k)
    else
      KeysExactly(init, key);
      |xs| - 1
  }

  /** Every group is non-empty and starts with the first element that has its key
      (what `group.FirstOrDefault()` returns). */
  lemma {:induction false} MembersStartWithFirst<T, K>(xs: seq<T>, key: T -> K, k: K)
    requires k in Keys(xs, key)
    ensures |Members(xs, key, k)| > 0
    ensures Members(xs, key, k)[0] == xs[FirstIndex(xs, key, k)]
    decreases |xs|
  {
    var init, last := xs[..|xs| - 1], xs[|xs| - 1];
    assert xs == init + [last];
    if k in Keys(init, key) {
      MembersStartWithFirst(init, key, k);
    } else {
      MembersExactly(init, key, k);
      assert Members(xs, key, k) == [last];
    }
  }

  /** The keys, hence the groups, come in order of first appearance. */
  lemma {:induction false} KeysInOrderOfFirstAppearance<T, K>(xs: seq<T>, key: T -> K)
    ensures forall i, j :: 0 <= i < j < |Keys(xs, key)| ==>
      FirstIndex(xs, key, Keys(xs, key)[i]) < FirstIndex(xs, key, Keys(xs, key)[j])
    decreases |xs|
  {
    if xs != [] {
      var init, last := xs[..|xs| - 1], xs[|xs| - 1];
      assert xs == init + [last];
      KeysInOrderOfFirstAppearance(init, key);
      var ks, ks0 := Keys(xs, key), Keys(init, key);
      forall i, j | 0 <= i < j < |ks|
        ensures FirstIndex(xs, key, ks[i]) < FirstIndex(xs, key, ks[j])
      {
        assert ks[i] == ks0[i];
        assert FirstIndex(xs, key, ks[i]) == FirstIndex(init, key, ks0[i]);
        if j < |ks0| {
          assert ks[j] == ks0[j];
        } else {
          assert ks[j] == key(last) && key(last) !in ks0;
        }
      }
    }
  }
}
