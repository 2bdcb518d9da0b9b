// Grouping a sequence by a key, the way the scripts do it with
// `defaultdict(list)` / `dict.setdefault(key, []).append(item)`: every item
// goes to the list of its key, lists keep input order, and the dictionary's
// keys come in first-seen order.

module Grouping {
  import opened Sorting

  /** The key of every item, in input order, with repetitions. */
  function KeysOf<T, K>(s: seq<T>, key: T -> K): (r: seq<K>)
    ensures |r| == |s|
  {
    if s == [] then [] else KeysOf(s[..|s| - 1], key) + [key(s[|s| - 1])]
  }

  /** The items whose key is `k`, in input order. */
  function Members<T, K(==)>(s: seq<T>, key: T -> K, k: K): (r: seq<T>)
    ensures |r| <= |s|
  {
    if s == [] then []
    else Members(s[..|s| - 1], key, k) + if key(s[|s| - 1]) == k then [s[|s| - 1]] else []
  }

  /** The dictionary the append loop builds: each key to its items. */
  function GroupsOf<T, K(==)>(s: seq<T>, key: T -> K): map<K, seq<T>>
  {
    if s == [] then map[]
    else
      var groups := GroupsOf(s[..|s| - 1], key);
      var x := s[|s| - 1];
      groups[key(x) := (if key(x) in groups then groups[key(x)] else []) + [x]]
  }

  /** The dictionary's keys in insertion order. */
  function Order<T, K(==)>(s: seq<T>, key: T -> K): (r: seq<K>)
    ensures NoDuplicates(r)
    ensures Elems(r) == Elems(KeysOf(s, key))
  {
    Dedup(KeysOf(s, key))
  }

  lemma KeysOfSnoc<T, K>(s: seq<T>, x: T, key: T -> K)
    ensures KeysOf(s + [x], key) == KeysOf(s, key) + [key(x)]
  {
    assert (s + [x])[..|s|] == s;
  }

  lemma MembersSnoc<T, K>(s: seq<T>, x: T, key: T -> K, k: K)
    ensures key(x) == k ==> Members(s + [x], key, k) == Members(s, key, k) + [x]
    ensures key(x) != k ==> Members(s + [x], key, k) == Members(s, key, k)
  {
    assert (s + [x])[..|s|] == s;
    assert Members(s, key, k) + [] == Members(s, key, k);
  }

  lemma GroupsOfSnoc<T, K>(s: seq<T>, x: T, key: T -> K)
    ensures var groups := GroupsOf(s, key);
      GroupsOf(s + [x], key) == groups[key(x) := (if key(x) in groups then groups[key(x)] else []) + [x]]
  {
    assert (s + [x])[..|s|] == s;
  }

  /** Every item has its key; an item with that key is in the list. */
  lemma {:induction false} MembersExact<T, K>(s: seq<T>, key: T -> K, k: K)
    ensures forall x <- Members(s, key, k) :: x in s && key(x) == k
    ensures forall x <- s :: key(x) == k ==> x in Members(s, key, k)
  {
    if s != [] {
      MembersExact(s[..|s| - 1], key, k);
      assert s == s[..|s| - 1] + [s[|s| - 1]];
    }
  }

  /** The dictionary has exactly the keys that occur, each mapped to its members. */
  lemma {:induction false} GroupsOfExact<T, K>(s: seq<T>, key: T -> K, k: K)
    ensures k in GroupsOf(s, key) <==> k in KeysOf(s, key)
    ensures k in GroupsOf(s, key) ==> GroupsOf(s, key)[k] == Members(s, key, k) && Members(s, key, k) != []
    ensures k !in GroupsOf(s, key) ==> Members(s, key, k) == []
  {
    if s != [] {
      GroupsOfExact(s[..|s| - 1], key, k);
    }
  }

  /** `for x in s: groups[key(x)].append(x)`, with the insertion order beside the dictionary. */
  method GroupBy<T, K>(s: seq<T>, key: T -> K) returns (order: seq<K>, groups: map<K, seq<T>>)
    ensures order == Order(s, key)
    ensures groups == GroupsOf(s, key)
  {
    order := [];
    groups := map[];
    var i := 0;
    while i < |s|
      invariant 0 <= i <= |s|
      invariant order == Order(s[..i], key)
      invariant groups == GroupsOf(s[..i], key)
    {
      var x := s[i];
      assert s[..i + 1] == s[..i] + [x];
      KeysOfSnoc(s[..i], x, key);
      GroupsOfSnoc(s[..i], x, key);
      DedupSnoc(KeysOf(s[..i], key), key(x));
      GroupsOfExact(s[..i], key, key(x));
      assert key(x) in KeysOf(s[..i], key) <==> key(x) in Elems(order);
      if key(x) !in groups {
        order := order + [key(x)];
      }
      var sofar := if key(x) in groups then groups[key(x)] else [];
      groups := groups[key(x) := sofar + [x]];
      i := i + 1;
    }
    assert s[..i] == s;
  }

  // ------------------------------------------------------------ partition

  /** The groups of the keys `ks`, one after another. */
  function Gather<T, K(==)>(ks: seq<K>, s: seq<T>, key: T -> K): seq<T>
  {
    if ks == [] then [] else Gather(ks[..|ks| - 1], s, key) + Members(s, key, ks[|ks| - 1])
  }

  lemma {:induction false} GatherSnoc<T, K>(ks: seq<K>, s: seq<T>, x: T, key: T -> K)
    requires NoDuplicates(ks)
    ensures multiset(Gather(ks, s + [x], key))
         == multiset(Gather(ks, s, key)) + if key(x) in ks then multiset{x} else multiset{}
  {
    if ks != [] {
      var init, k := ks[..|ks| - 1], ks[|ks| - 1];
      assert NoDuplicates(init);
      GatherSnoc(init, s, x, key);
      MembersSnoc(s, x, key, k);
      assert ks == init + [k];
      assert key(x) in ks <==> key(x) in init || key(x) == k;
      assert key(x) == k ==> key(x) !in init;
    }
  }

  /**
   * The groups, taken in insertion order, hold every item exactly once:
   * together they are a rearrangement of the input.
   */
  lemma {:induction false} GroupsPartition<T, K>(s: seq<T>, key: T -> K)
    ensures multiset(Gather(Order(s, key), s, key)) == multiset(s)
  {
    if s != [] {
      var init, x := s[..|s| - 1], s[|s| - 1];
      assert s == init + [x];
      GroupsPartition(init, key);
      KeysOfSnoc(init, x, key);
      DedupSnoc(KeysOf(init, key), key(x));
      var d := Order(init, key);
      GatherSnoc(d, init, x, key);
      if key(x) !in d {
        NewKeyGroup(init, x, key);
      }
    }
  }

  lemma GatherAppend<T, K>(ks: seq<K>, k: K, s: seq<T>, key: T -> K)
    ensures Gather(ks + [k], s, key) == Gather(ks, s, key) + Members(s, key, k)
  {
    assert (ks + [k])[..|ks|] == ks;
  }

  /** An item with an unseen key opens a group holding just that item. */
  lemma NewKeyGroup<T, K>(s: seq<T>, x: T, key: T -> K)
    requires key(x) !in Order(s, key)
    ensures Gather(Order(s, key) + [key(x)], s + [x], key) == Gather(Order(s, key), s + [x], key) + [x]
  {
    var d := Order(s, key);
    assert key(x) !in Elems(d);
    assert key(x) !in KeysOf(s, key);
    GroupsOfExact(s, key, key(x));
    MembersSnoc(s, x, key, key(x));
    assert Members(s + [x], key, key(x)) == [x];
    GatherAppend(d, key(x), s + [x], key);
  }

  /** Corollary: the group sizes add up to the number of items. */
  lemma GroupSizes<T, K>(s: seq<T>, key: T -> K)
    ensures |Gather(Order(s, key), s, key)| == |s|
  {
    GroupsPartition(s, key);
    assert |multiset(Gather(Order(s, key), s, key))| == |multiset(s)|;
  }

  // ------------------------------------------------------- sorted groups

  /** The grouping with every group sorted by `sortKey`, stably. */
  function SortedGroupsOf<T, K(==)>(s: seq<T>, group: T -> K, sortKey: T -> seq<int>): map<K, seq<T>>
  {
    var groups := GroupsOf(s, group);
    map k | k in groups :: SortByKey(groups[k], sortKey)
  }

  /** The groups after the keys in `done` have had their group sorted. */
  function PartlySorted<T, K(==)>(groups: map<K, seq<T>>, done: seq<K>, sortKey: T -> seq<int>): (r: map<K, seq<T>>)
    ensures r.Keys == groups.Keys
  {
    map k | k in groups :: if k in done then SortByKey(groups[k], sortKey) else groups[k]
  }

  lemma PartlySortedNone<T, K>(groups: map<K, seq<T>>, sortKey: T -> seq<int>)
    ensures PartlySorted(groups, [], sortKey) == groups
  {
    var r := PartlySorted(groups, [], sortKey);
    forall k | k in r ensures r[k] == groups[k] {
    }
  }

  lemma PartlySortedStep<T, K>(groups: map<K, seq<T>>, done: seq<K>, k: K, sortKey: T -> seq<int>)
    requires k in groups && k !in done
    ensures PartlySorted(groups, done, sortKey)[k] == groups[k]
    ensures PartlySorted(groups, done + [k], sortKey) == PartlySorted(groups, done, sortKey)[k := SortByKey(groups[k], sortKey)]
  {
  }

  /**
   * `for x in s: grouped[group(x)].append(x)` followed by
   * `for k in grouped: grouped[k].sort(key=sortKey)`.
   */
  method GroupAndSort<T, K>(s: seq<T>, group: T -> K, sortKey: T -> seq<int>)
    returns (order: seq<K>, groups: map<K, seq<T>>)
    ensures order == Order(s, group)
    ensures groups == SortedGroupsOf(s, group, sortKey)
  {
    var unsorted;
    order, unsorted := GroupBy(s, group);
    forall i | 0 <= i < |order| ensures order[i] in unsorted {
      OrderInGroups(s, group, i);
    }
    groups := SortEachGroup(order, unsorted, sortKey);
    SortedGroupsDone(s, group, sortKey);
  }

  /** The sorting loop: `for k in keys: groups[k].sort(key=sortKey)`. */
  method SortEachGroup<T, K>(keys: seq<K>, unsorted: map<K, seq<T>>, sortKey: T -> seq<int>)
    returns (groups: map<K, seq<T>>)
    requires NoDuplicates(keys) && forall k <- keys :: k in unsorted
    ensures groups == PartlySorted(unsorted, keys, sortKey)
  {
    groups := unsorted;
    PartlySortedNone(unsorted, sortKey);
    assert keys[..0] == [];
    for i := 0 to |keys|
      invariant groups == PartlySorted(unsorted, keys[..i], sortKey)
    {
      var k := keys[i];
      assert keys[..i + 1] == keys[..i] + [k];
      PartlySortedStep(unsorted, keys[..i], k, sortKey);
      groups := groups[k := SortByKey(groups[k], sortKey)];
    }
    assert keys[..|keys|] == keys;
  }

  lemma OrderInGroups<T, K>(s: seq<T>, group: T -> K, i: nat)
    requires i < |Order(s, group)|
    ensures Order(s, group)[i] in GroupsOf(s, group)
  {
    var k := Order(s, group)[i];
    GroupsOfExact(s, group, k);
    assert k in Elems(Order(s, group));
  }

  /** Once every key has been visited, every group is sorted. */
  lemma SortedGroupsDone<T, K>(s: seq<T>, group: T -> K, sortKey: T -> seq<int>)
    ensures PartlySorted(GroupsOf(s, group), Order(s, group), sortKey) == SortedGroupsOf(s, group, sortKey)
  {
    var a := PartlySorted(GroupsOf(s, group), Order(s, group), sortKey);
    var b := SortedGroupsOf(s, group, sortKey);
    forall k | k in a ensures a[k] == b[k] {
      GroupsOfExact(s, group, k);
      assert k in Elems(KeysOf(s, group));
    }
  }

  /**
   * A sorted group holds exactly the items of its key, ordered by `sortKey`,
   * with equal-keyed items in input order; there are no empty groups.
   */
  lemma SortedGroup<T, K>(s: seq<T>, group: T -> K, sortKey: T -> seq<int>, k: K)
    ensures k in SortedGroupsOf(s, group, sortKey) <==> exists x <- s :: group(x) == k
    ensures k in SortedGroupsOf(s, group, sortKey) ==>
      var g := SortedGroupsOf(s, group, sortKey)[k];
      g != [] &&
      multiset(g) == multiset(Members(s, group, k)) &&
      (forall x :: x in g <==> x in s && group(x) == k) &&
      SortedBy(g, sortKey) &&
      forall sk :: Keep(g, sortKey, sk) == Keep(Members(s, group, k), sortKey, sk)
  {
    GroupsOfExact(s, group, k);
    MembersExact(s, group, k);
    KeysOfMembers(s, group, k);
    if k in GroupsOf(s, group) {
      var m := Members(s, group, k);
      var g := SortByKey(m, sortKey);
      SortByKeySorted(m, sortKey);
      forall sk { SortByKeyStable(m, sortKey, sk); }
      assert forall x :: x in g <==> x in multiset(m);
    }
  }

  /** A key occurs exactly when some item has it. */
  lemma {:induction false} KeysOfMembers<T, K>(s: seq<T>, key: T -> K, k: K)
    ensures k in KeysOf(s, key) <==> exists x <- s :: key(x) == k
  {
    if s != [] {
      var init, x := s[..|s| - 1], s[|s| - 1];
      KeysOfMembers(init, key, k);
      assert s == init + [x];
      if key(x) == k { assert x in s; }
      assert forall y <- s :: y in init || y == x;
    }
  }

  // ----------------------------------------------------- canonical order

  /** The elements of `xs` that `ys` contains, in `xs`' order. */
  function Present<K(==)>(xs: seq<K>, ys: seq<K>): (r: seq<K>)
    ensures forall z <- r :: z in xs && z in ys
    ensures forall z <- xs :: z in ys ==> z in r
  {
    if xs == [] then []
    else Present(xs[..|xs| - 1], ys) + if xs[|xs| - 1] in ys then [xs[|xs| - 1]] else []
  }

  /** The elements of `xs` that `ys` lacks, in `xs`' order. */
  function Absent<K(==)>(xs: seq<K>, ys: seq<K>): (r: seq<K>)
    ensures forall z <- r :: z in xs && z !in ys
    ensures forall z <- xs :: z !in ys ==> z in r
  {
    if xs == [] then []
    else Absent(xs[..|xs| - 1], ys) + if xs[|xs| - 1] in ys then [] else [xs[|xs| - 1]]
  }

  /** The known keys first in the canonical order, then the others in the order they were seen. */
  function CanonicalFirst<K(==)>(canonical: seq<K>, seen: seq<K>): seq<K>
  {
    Present(canonical, seen) + Absent(seen, canonical)
  }

  lemma {:induction false} PresentNoDuplicates<K>(xs: seq<K>, ys: seq<K>)
    requires NoDuplicates(xs)
    ensures NoDuplicates(Present(xs, ys))
  {
    if xs != [] {
      var init := xs[..|xs| - 1];
      PresentNoDuplicates(init, ys);
    }
  }

  lemma {:induction false} AbsentNoDuplicates<K>(xs: seq<K>, ys: seq<K>)
    requires NoDuplicates(xs)
    ensures NoDuplicates(Absent(xs, ys))
  {
    if xs != [] {
      var init := xs[..|xs| - 1];
      AbsentNoDuplicates(init, ys);
    }
  }

  /**
   * The canonical ordering lists every seen key exactly once, and nothing
   * else; a known key comes before every unknown one.
   */
  lemma CanonicalFirstPermutes<K>(canonical: seq<K>, seen: seq<K>)
    requires NoDuplicates(canonical) && NoDuplicates(seen)
    ensures var r := CanonicalFirst(canonical, seen);
      Elems(r) == Elems(seen) && NoDuplicates(r) && |r| == |seen|
    ensures var r := CanonicalFirst(canonical, seen);
      forall i, j :: 0 <= i < |r| && 0 <= j < |r| && r[i] in canonical && r[j] !in canonical ==> i < j
  {
    var p, a := Present(canonical, seen), Absent(seen, canonical);
    var r := p + a;
    PresentNoDuplicates(canonical, seen);
    AbsentNoDuplicates(seen, canonical);
    forall i, j | 0 <= i < j < |r| ensures r[i] != r[j] {
      if i < |p| && j >= |p| {
        assert r[i] in p && r[j] == a[j - |p|];
      }
    }
    assert Elems(r) == Elems(seen);
    DistinctSameElems(r, seen);
    forall m | 0 <= m < |r| ensures m < |p| <==> r[m] in canonical {
      if m < |p| {
        assert r[m] == p[m];
      } else {
        assert r[m] == a[m - |p|];
      }
    }
  }

  /** Two duplicate-free sequences with the same elements have the same length. */
  lemma DistinctSameElems<K>(a: seq<K>, b: seq<K>)
    requires NoDuplicates(a) && NoDuplicates(b) && Elems(a) == Elems(b)
    ensures |a| == |b|
  {
    DistinctCard(a);
    DistinctCard(b);
  }

  lemma {:induction false} DistinctCard<K>(a: seq<K>)
    requires NoDuplicates(a)
    ensures |Elems(a)| == |a|
  {
    if a != [] {
      var init := a[..|a| - 1];
      DistinctCard(init);
      ElemsInitLast(a);
      assert a[|a| - 1] !in Elems(init);
    }
  }

  /** The next seen key is already placed exactly when it is a canonical one. */
  lemma SeenNext<K>(canonical: seq<K>, seen: seq<K>, i: nat)
    requires NoDuplicates(seen) && i < |seen|
    ensures seen[i] in Present(canonical, seen) + Absent(seen[..i], canonical) <==> seen[i] in canonical
  {
    assert seen[i] !in seen[..i];
  }

  /**
   * `for k in canonical: if k in grouped: ordered.append(k)` and then
   * `for k in grouped: if k not in ordered: ordered.append(k)`.
   */
  method OrderCanonically<K(==)>(canonical: seq<K>, seen: seq<K>) returns (ordered: seq<K>)
    requires NoDuplicates(seen)   // the keys of a dictionary
    ensures ordered == CanonicalFirst(canonical, seen)
  {
    ordered := [];
    for i := 0 to |canonical|
      invariant ordered == Present(canonical[..i], seen)
    {
      assert canonical[..i + 1][..i] == canonical[..i];
      if canonical[i] in seen {
        ordered := ordered + [canonical[i]];
      }
    }
    assert canonical[..|canonical|] == canonical;
    ghost var known := ordered;
    for i := 0 to |seen|
      invariant ordered == known + Absent(seen[..i], canonical)
    {
      assert seen[..i + 1][..i] == seen[..i];
      var k := seen[i];
      SeenNext(canonical, seen, i);
      if k !in ordered {
        ordered := ordered + [k];
      }
      assert k in ordered;
    }
    assert seen[..|seen|] == seen;
  }
}
