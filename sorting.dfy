// Ordering shared by the scripts: Python's `list.sort(key=...)` and
// JavaScript's `Array.prototype.sort` are both stable; keys are compared the
// way Python compares strings, ints and tuples of them, which is the
// lexicographic order on sequences of integers used here.

module Sorting {

  /** Lexicographic order on integer sequences; a proper prefix comes first. */
  predicate LexLe(a: seq<int>, b: seq<int>)
    decreases |a|
  {
    |a| == 0 || (|b| > 0 && (a[0] < b[0] || (a[0] == b[0] && LexLe(a[1..], b[1..]))))
  }

  predicate LexLt(a: seq<int>, b: seq<int>) { LexLe(a, b) && a != b }

  lemma {:induction false} LexLeRefl(a: seq<int>)
    ensures LexLe(a, a)
    decreases |a|
  {
    if |a| > 0 { LexLeRefl(a[1..]); }
  }

  lemma {:induction false} LexLeTotal(a: seq<int>, b: seq<int>)
    ensures LexLe(a, b) || LexLe(b, a)
    decreases |a|
  {
    if |a| > 0 && |b| > 0 && a[0] == b[0] { LexLeTotal(a[1..], b[1..]); }
  }

  lemma {:induction false} LexLeTrans(a: seq<int>, b: seq<int>, c: seq<int>)
    requires LexLe(a, b) && LexLe(b, c)
    ensures LexLe(a, c)
    decreases |a|
  {
    if |a| > 0 && a[0] == b[0] && b[0] == c[0] { LexLeTrans(a[1..], b[1..], c[1..]); }
  }

  lemma {:induction false} LexLeAntisym(a: seq<int>, b: seq<int>)
    requires LexLe(a, b) && LexLe(b, a)
    ensures a == b
    decreases |a|
  {
    if |a| > 0 {
      LexLeAntisym(a[1..], b[1..]);
      assert a == [a[0]] + a[1..] && b == [b[0]] + b[1..];
    }
  }

  /** Tuple comparison `(x, rest) <= (y, rest')` for a leading integer. */
  lemma LexLeCons(x: int, a: seq<int>, y: int, b: seq<int>)
    ensures LexLe([x] + a, [y] + b) <==> x < y || (x == y && LexLe(a, b))
  {
    assert ([x] + a)[1..] == a && ([y] + b)[1..] == b;
  }

  // ----------------------------------------------------- sortedness, keeps

  ghost predicate SortedBy<T>(s: seq<T>, key: T -> seq<int>)
  {
    forall i, j :: 0 <= i < j < |s| ==> LexLe(key(s[i]), key(s[j]))
  }

  /** The elements of `s` whose key is `k`, in their order in `s`. */
  function Keep<T>(s: seq<T>, key: T -> seq<int>, k: seq<int>): (r: seq<T>)
    ensures |r| <= |s|
  {
    if s == [] then []
    else if key(s[0]) == k then [s[0]] + Keep(s[1..], key, k)
    else Keep(s[1..], key, k)
  }

  lemma {:induction false} KeepConcat<T>(a: seq<T>, b: seq<T>, key: T -> seq<int>, k: seq<int>)
    ensures Keep(a + b, key, k) == Keep(a, key, k) + Keep(b, key, k)
  {
    if a == [] {
      assert a + b == b;
    } else {
      assert (a + b)[1..] == a[1..] + b;
      KeepConcat(a[1..], b, key, k);
    }
  }

  // --------------------------------------------------- stable insertion

  /** Inserts `x` after every leading element whose key is not above `x`'s. */
  function Insert<T>(x: T, s: seq<T>, key: T -> seq<int>): (r: seq<T>)
    ensures multiset(r) == multiset(s) + multiset{x}
    ensures |r| == |s| + 1
  {
    if s == [] then [x]
    else if LexLe(key(s[0]), key(x)) then
      assert s == [s[0]] + s[1..];
      [s[0]] + Insert(x, s[1..], key)
    else [x] + s
  }

  /**
   * `sorted(s, key=key)`: stable sort.  Elements are inserted in input
   * order, each after the equal-keyed ones already placed.
   */
  function SortByKey<T>(s: seq<T>, key: T -> seq<int>): (r: seq<T>)
    ensures multiset(r) == multiset(s)
    ensures |r| == |s|
  {
    if s == [] then []
    else
      assert s == s[..|s| - 1] + [s[|s| - 1]];
      Insert(s[|s| - 1], SortByKey(s[..|s| - 1], key), key)
  }

  lemma {:induction false} InsertSorted<T>(x: T, s: seq<T>, key: T -> seq<int>)
    requires SortedBy(s, key)
    ensures SortedBy(Insert(x, s, key), key)
  {
    if s != [] {
      if LexLe(key(s[0]), key(x)) {
        InsertSorted(x, s[1..], key);
        var r := Insert(x, s, key);
        var t := Insert(x, s[1..], key);
        assert r == [s[0]] + t;
        forall j | 0 < j < |r| ensures LexLe(key(r[0]), key(r[j])) {
          assert r[j] in multiset(t);
          assert r[j] in multiset(s[1..]) + multiset{x};
          if r[j] == x {
          } else {
            assert r[j] in s[1..];
            var m :| 0 <= m < |s[1..]| && s[1..][m] == r[j];
            assert s[m + 1] == r[j];
          }
        }
      } else {
        var r := [x] + s;
        LexLeTotal(key(s[0]), key(x));
        forall j | 0 < j < |r| ensures LexLe(key(r[0]), key(r[j])) {
          if j > 1 { LexLeTrans(key(x), key(s[0]), key(s[j - 1])); }
        }
      }
    }
  }

  lemma {:induction false} SortByKeySorted<T>(s: seq<T>, key: T -> seq<int>)
    ensures SortedBy(SortByKey(s, key), key)
  {
    if s != [] {
      SortByKeySorted(s[..|s| - 1], key);
      InsertSorted(s[|s| - 1], SortByKey(s[..|s| - 1], key), key);
    }
  }

  lemma {:induction false} KeepInsert<T>(x: T, s: seq<T>, key: T -> seq<int>, k: seq<int>)
    requires SortedBy(s, key)
    ensures Keep(Insert(x, s, key), key, k)
         == Keep(s, key, k) + (if key(x) == k then [x] else [])
  {
    if s == [] {
    } else if LexLe(key(s[0]), key(x)) {
      assert SortedBy(s[1..], key);
      KeepInsert(x, s[1..], key, k);
    } else {
      LexLeTotal(key(s[0]), key(x));
      if key(x) == k {
        KeepNone(s, key, k);
      }
    }
  }

  /** In a sorted sequence whose head key is above `k`, nothing has key `k`. */
  lemma {:induction false} KeepNone<T>(s: seq<T>, key: T -> seq<int>, k: seq<int>)
    requires SortedBy(s, key)
    requires s != [] && LexLe(k, key(s[0])) && k != key(s[0])
    ensures Keep(s, key, k) == []
  {
    if |s| > 1 {
      assert SortedBy(s[1..], key);
      if key(s[1]) == k {
        LexLeAntisym(k, key(s[0]));
      }
      LexLeTrans(k, key(s[0]), key(s[1]));
      KeepNone(s[1..], key, k);
    }
  }

  /** Stability: equal-keyed elements keep their relative input order. */
  lemma {:induction false} SortByKeyStable<T>(s: seq<T>, key: T -> seq<int>, k: seq<int>)
    ensures Keep(SortByKey(s, key), key, k) == Keep(s, key, k)
  {
    if s != [] {
      var init, x := s[..|s| - 1], s[|s| - 1];
      var sorted := SortByKey(init, key);
      assert SortByKey(s, key) == Insert(x, sorted, key);
      SortByKeyStable(init, key, k);
      SortByKeySorted(init, key);
      KeepInsert(x, sorted, key, k);
      assert s == init + [x];
      KeepConcat(init, [x], key, k);
      assert Keep([x], key, k) == if key(x) == k then [x] else [];
    }
  }

  // ------------------------------------------------------- sorted(set(...))

  predicate NoDuplicates<T(==)>(s: seq<T>)
  {
    forall i, j :: 0 <= i < j < |s| ==> s[i] != s[j]
  }

  /** The set of elements of a sequence. */
  function Elems<T>(s: seq<T>): set<T> { set x | x in s }

  lemma ElemsInitLast<T>(s: seq<T>)
    requires s != []
    ensures Elems(s) == Elems(s[..|s| - 1]) + {s[|s| - 1]}
  {
    assert s == s[..|s| - 1] + [s[|s| - 1]];
    assert forall x :: x in s <==> x in s[..|s| - 1] || x == s[|s| - 1];
  }

  lemma ElemsOfPermutation<T>(a: seq<T>, b: seq<T>)
    requires multiset(a) == multiset(b)
    ensures Elems(a) == Elems(b)
  {
    assert forall x :: x in a <==> x in multiset(a);
    assert forall x :: x in b <==> x in multiset(b);
  }

  /** The first occurrence of every element, in input order. */
  function Dedup<T(==)>(s: seq<T>): (r: seq<T>)
    ensures Elems(r) == Elems(s)
    ensures NoDuplicates(r)
  {
    if s == [] then []
    else
      var d := Dedup(s[..|s| - 1]);
      ElemsInitLast(s);
      if s[|s| - 1] in d then d else d + [s[|s| - 1]]
  }

  /** Dropping the last element keeps a sequence sorted and duplicate-free. */
  lemma SortedInit<T>(s: seq<T>, key: T -> seq<int>)
    requires s != [] && SortedBy(s, key) && NoDuplicates(s)
    ensures SortedBy(s[..|s| - 1], key) && NoDuplicates(s[..|s| - 1])
    ensures forall x :: x in s[..|s| - 1] ==> LexLe(key(x), key(s[|s| - 1])) && x != s[|s| - 1]
  {
  }

  lemma DedupSnoc<T>(s: seq<T>, x: T)
    ensures Dedup(s + [x]) == if x in Dedup(s) then Dedup(s) else Dedup(s) + [x]
  {
    assert (s + [x])[..|s|] == s;
  }

  lemma {:induction false} NoDuplicatesPermutation<T>(a: seq<T>, b: seq<T>)
    requires NoDuplicates(a) && multiset(a) == multiset(b)
    ensures NoDuplicates(b)
  {
    forall i, j | 0 <= i < j < |b| ensures b[i] != b[j] {
      NoDuplicatesCount(a, b[i]);
      TwoCopies(b, i, j);
    }
  }

  lemma {:induction false} NoDuplicatesCount<T>(a: seq<T>, x: T)
    requires NoDuplicates(a)
    ensures multiset(a)[x] <= 1
  {
    if a != [] {
      assert NoDuplicates(a[1..]);
      NoDuplicatesCount(a[1..], x);
      assert a == [a[0]] + a[1..];
      if a[0] == x {
        assert x !in a[1..];
      }
    }
  }

  lemma TwoCopies<T>(b: seq<T>, i: int, j: int)
    requires 0 <= i < j < |b|
    ensures b[i] == b[j] ==> multiset(b)[b[i]] >= 2
  {
    assert b == b[..i] + [b[i]] + b[i + 1..j] + [b[j]] + b[j + 1..];
  }

  /** `sorted(set(s), key=key)`, i.e. ordered, every element once. */
  function SortedUnique<T(==)>(s: seq<T>, key: T -> seq<int>): (r: seq<T>)
    ensures Elems(r) == Elems(s)
    ensures NoDuplicates(r)
    ensures SortedBy(r, key)
  {
    var d := Dedup(s);
    var r := SortByKey(d, key);
    SortByKeySorted(d, key);
    NoDuplicatesPermutation(d, r);
    ElemsOfPermutation(d, r);
    r
  }
}
