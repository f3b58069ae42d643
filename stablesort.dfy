/**
 * Python's `sorted(xs, key=k, reverse=True)` (and `xs.sort(...)`), which
 * orders by descending key and keeps equal keys in their input order.
 */
module StableSort {

  predicate SortedDesc<T>(s: seq<T>, key: T -> real) {
    forall i, j :: 0 <= i < j < |s| ==> key(s[i]) >= key(s[j])
  }

  /** Insert `x` after every element whose key is at least `key(x)`. */
  function Insert<T(==)>(s: seq<T>, x: T, key: T -> real): (r: seq<T>)
    requires SortedDesc(s, key)
    ensures SortedDesc(r, key)
    ensures multiset(r) == multiset(s) + multiset{x}
  {
    if s == [] then [x]
    else if key(s[0]) >= key(x) then
      var t := Insert(s[1..], x, key);
      assert s == [s[0]] + s[1..];
      HeadBoundsInsert(s, x, t, key);
      [s[0]] + t
    else [x] + s
  }

  /** The head of a sorted `s` has a key at least that of everything in its tail with `x` added. */
  lemma HeadBoundsInsert<T>(s: seq<T>, x: T, t: seq<T>, key: T -> real)
    requires SortedDesc(s, key) && s != [] && key(s[0]) >= key(x)
    requires multiset(t) == multiset(s[1..]) + multiset{x}
    ensures forall i :: 0 <= i < |t| ==> key(s[0]) >= key(t[i])
  {
    forall i | 0 <= i < |t| ensures key(s[0]) >= key(t[i]) {
      assert t[i] in multiset(t);
      if t[i] != x {
        assert t[i] in multiset(s[1..]);
        var j :| 0 <= j < |s[1..]| && s[1..][j] == t[i];
        assert s[j + 1] == t[i];
      }
    }
  }

  /** The stable descending sort, as an insertion sort. */
  function SortDesc<T(==)>(s: seq<T>, key: T -> real): (r: seq<T>)
    ensures SortedDesc(r, key)
    ensures multiset(r) == multiset(s)
  {
    if s == [] then []
    else
      assert s == s[..|s| - 1] + [s[|s| - 1]];
      Insert(SortDesc(s[..|s| - 1], key), s[|s| - 1], key)
  }

  /** The elements of `s` whose key is `v`, in order. */
  function WithKey<T>(s: seq<T>, key: T -> real, v: real): seq<T> {
    if s == [] then [] else (if key(s[0]) == v then [s[0]] else []) + WithKey(s[1..], key, v)
  }

  lemma {:induction false} WithKeyConcat<T>(a: seq<T>, b: seq<T>, key: T -> real, v: real)
    ensures WithKey(a + b, key, v) == WithKey(a, key, v) + WithKey(b, key, v)
  {
    if a == [] {
      assert a + b == b;
    } else {
      var h := if key(a[0]) == v then [a[0]] else [];
      assert (a + b)[0] == a[0] && (a + b)[1..] == a[1..] + b;
      assert WithKey(a + b, key, v) == h + WithKey(a[1..] + b, key, v);
      assert WithKey(a, key, v) == h + WithKey(a[1..], key, v);
      WithKeyConcat(a[1..], b, key, v);
      AppendAssoc(h, WithKey(a[1..], key, v), WithKey(b, key, v));
    }
  }

  lemma {:induction false} WithKeyNone<T>(s: seq<T>, key: T -> real, v: real)
    requires forall i :: 0 <= i < |s| ==> key(s[i]) < v
    ensures WithKey(s, key, v) == []
  {
    if s != [] { WithKeyNone(s[1..], key, v); }
  }

  lemma {:induction false} WithKeyInsert<T>(s: seq<T>, x: T, key: T -> real, v: real)
    requires SortedDesc(s, key)
    ensures WithKey(Insert(s, x, key), key, v) == WithKey(s, key, v) + (if key(x) == v then [x] else [])
  {
    if s == [] {
      assert Insert(s, x, key) == [x];
      assert WithKey([x], key, v) == (if key(x) == v then [x] else []) + WithKey([], key, v);
    } else if key(s[0]) >= key(x) {
      WithKeyInsert(s[1..], x, key, v);
      WithKeyInsertBehind(s, x, key, v);
    } else {
      WithKeyInsertFront(s, x, key, v);
    }
  }

  lemma WithKeyInsertBehind<T>(s: seq<T>, x: T, key: T -> real, v: real)
    requires SortedDesc(s, key) && s != [] && key(s[0]) >= key(x)
    requires WithKey(Insert(s[1..], x, key), key, v) == WithKey(s[1..], key, v) + (if key(x) == v then [x] else [])
    ensures WithKey(Insert(s, x, key), key, v) == WithKey(s, key, v) + (if key(x) == v then [x] else [])
  {
    var t := Insert(s[1..], x, key);
    var u := [s[0]] + t;
    assert Insert(s, x, key) == u;
    assert u[0] == s[0] && u[1..] == t;
    var h := if key(s[0]) == v then [s[0]] else [];
    assert WithKey(u, key, v) == h + WithKey(t, key, v);
    assert WithKey(s, key, v) == h + WithKey(s[1..], key, v);
    AppendAssoc(h, WithKey(s[1..], key, v), if key(x) == v then [x] else []);
  }

  lemma SplitLast<T>(s: seq<T>)
    requires s != []
    ensures s == s[..|s| - 1] + [s[|s| - 1]]
  {
  }

  lemma AppendAssoc<T>(a: seq<T>, b: seq<T>, c: seq<T>)
    ensures a + (b + c) == (a + b) + c
  {
  }

  lemma WithKeyInsertFront<T>(s: seq<T>, x: T, key: T -> real, v: real)
    requires SortedDesc(s, key) && s != [] && key(s[0]) < key(x)
    ensures WithKey(Insert(s, x, key), key, v) == WithKey(s, key, v) + (if key(x) == v then [x] else [])
  {
    assert Insert(s, x, key) == [x] + s;
    WithKeyConcat([x], s, key, v);
    if key(x) == v {
      WithKeyNone(s, key, v);
    }
  }

  /** Stability: for every key value, the elements with that key keep their input order. */
  lemma {:induction false} SortDescStable<T>(s: seq<T>, key: T -> real, v: real)
    ensures WithKey(SortDesc(s, key), key, v) == WithKey(s, key, v)
  {
    if s != [] {
      var p, x := s[..|s| - 1], s[|s| - 1];
      var hx := if key(x) == v then [x] else [];
      SplitLast(s);
      SortDescStable(p, key, v);
      assert SortDesc(s, key) == Insert(SortDesc(p, key), x, key);
      WithKeyInsert(SortDesc(p, key), x, key, v);
      assert WithKey(SortDesc(s, key), key, v) == WithKey(p, key, v) + hx;
      WithKeyConcat(p, [x], key, v);
      assert [x][1..] == [];
      assert WithKey([x], key, v) == hx + [];
      assert hx + [] == hx;
    }
  }

  /**
   * A prefix of a sorted sequence is sorted, is drawn from it (with
   * multiplicity), and whatever it leaves out has a key at most that of
   * everything it keeps.
   */
  lemma PrefixOfSorted<T>(s: seq<T>, n: nat, key: T -> real)
    requires n <= |s| && SortedDesc(s, key)
    ensures SortedDesc(s[..n], key)
    ensures multiset(s[..n]) <= multiset(s)
    ensures forall q, i :: q in s && q !in s[..n] && 0 <= i < n ==> key(q) <= key(s[i])
  {
    assert s == s[..n] + s[n..];
    assert multiset(s) == multiset(s[..n]) + multiset(s[n..]);
    forall q, i | q in s && q !in s[..n] && 0 <= i < n ensures key(q) <= key(s[i]) {
      var k :| 0 <= k < |s| && s[k] == q;
      assert forall j :: 0 <= j < n ==> s[j] == s[..n][j];
    }
  }

  /**
   * Taking the first elements of a sorted permutation of `s`: they come
   * from `s`, are sorted, and have keys at least those of whatever of `s`
   * they leave out; the first has the greatest key of all.
   */
  lemma TopOfSorted<T>(s: seq<T>, sorted: seq<T>, t: seq<T>, key: T -> real)
    requires SortedDesc(sorted, key) && multiset(sorted) == multiset(s)
    requires |t| <= |sorted| && t == sorted[..|t|]
    ensures SortedDesc(t, key) && multiset(t) <= multiset(s)
    ensures forall i :: 0 <= i < |t| ==> t[i] in s
    ensures forall q, i :: q in s && q !in t && 0 <= i < |t| ==> key(q) <= key(t[i])
    ensures t != [] ==> forall q :: q in s ==> key(q) <= key(t[0])
  {
    PrefixOfSorted(sorted, |t|, key);
    forall i | 0 <= i < |t| ensures t[i] in s {
      assert t[i] == sorted[i] && sorted[i] in multiset(sorted);
    }
    forall q | q in s ensures q in sorted {
      assert q in multiset(s);
    }
    if t != [] {
      forall q | q in s ensures key(q) <= key(t[0]) {
        var k :| 0 <= k < |sorted| && sorted[k] == q;
        assert t[0] == sorted[0];
      }
    }
  }

  /** Sorting keeps the length. */
  lemma SortDescLength<T>(s: seq<T>, key: T -> real)
    ensures |SortDesc(s, key)| == |s|
  {
    assert |multiset(SortDesc(s, key))| == |multiset(s)|;
  }

  /** Sorting keeps the elements, and the first element has the greatest key. */
  lemma SortDescMembers<T>(s: seq<T>, key: T -> real)
    ensures |SortDesc(s, key)| == |s|
    ensures forall x :: x in SortDesc(s, key) <==> x in s
    ensures s != [] ==> forall x :: x in s ==> key(x) <= key(SortDesc(s, key)[0])
  {
    var sorted := SortDesc(s, key);
    SortDescLength(s, key);
    forall x ensures x in sorted <==> x in s {
      assert x in sorted <==> x in multiset(sorted);
    }
    if s != [] {
      forall x | x in s ensures key(x) <= key(sorted[0]) {
        var k :| 0 <= k < |sorted| && sorted[k] == x;
      }
    }
  }
}
