/**
 * Python's list and string slicing and a few list helpers that the
 * pipeline uses on sequences of any element type.
 */
module PySeq {

  function Min(a: int, b: int): int { if a <= b then a else b }

  function Max(a: int, b: int): int { if a >= b then a else b }

  /** How Python turns a slice bound into a position: a negative bound counts from the end, and both are clamped to the sequence. */
  function Bound(i: int, len: nat): (r: nat)
    ensures r <= len
    ensures 0 <= i ==> r == Min(i, len)
    ensures i < 0 ==> r == Max(0, len + i)
  {
    if i < 0 then (if len + i < 0 then 0 else len + i)
    else if i > len then len
    else i
  }

  /** Python's `s[lo:hi]`. */
  function Slice<T>(s: seq<T>, lo: int, hi: int): (r: seq<T>)
    ensures |r| <= |s|
    ensures 0 <= lo <= hi <= |s| ==> r == s[lo..hi]
  {
    var a, b := Bound(lo, |s|), Bound(hi, |s|);
    if a < b then s[a..b] else []
  }

  /** Python's `s[:n]`: always a prefix; exactly `min(n, len(s))` elements when `n` is not negative, and all but the last `-n` when it is. */
  function Take<T>(s: seq<T>, n: int): (r: seq<T>)
    ensures |r| <= |s| && r == s[..|r|]
    ensures 0 <= n ==> |r| == Min(n, |s|)
    ensures n < 0 ==> |r| == Max(0, |s| + n)
  {
    Slice(s, 0, n)
  }

  /** `s[:n]` for an `n` below the length, as a Dafny prefix. */
  lemma TakeBelow<T>(s: seq<T>, n: int)
    requires n < |s|
    ensures 0 <= n ==> Take(s, n) == s[..n]
    ensures n < 0 ==> Take(s, n) == s[..Max(0, |s| + n)]
  {
  }

  /** Appending `f` of the last element to `f` of all the others gives `f` of every element. */
  lemma SnocMapped<A, B>(xs: seq<A>, ys: seq<B>, y: B, f: A --> B)
    requires xs != [] && |ys| == |xs| - 1
    requires forall k :: 0 <= k < |xs| ==> f.requires(xs[k])
    requires forall k :: 0 <= k < |ys| ==> ys[k] == f(xs[k])
    requires y == f(xs[|xs| - 1])
    ensures |ys + [y]| == |xs|
    ensures forall k :: 0 <= k < |xs| ==> (ys + [y])[k] == f(xs[k])
  {
  }

  /** Python's `sep.join(parts)`. */
  function Join(parts: seq<string>, sep: string): string
    decreases |parts|
  {
    if |parts| == 0 then ""
    else if |parts| == 1 then parts[0]
    else parts[0] + sep + Join(parts[1..], sep)
  }

  predicate NoDuplicates<T(==)>(s: seq<T>) {
    forall i, j :: 0 <= i < j < |s| ==> s[i] != s[j]
  }

  /** Position of the first occurrence of `x` in `s`. */
  function IndexOf<T(==)>(s: seq<T>, x: T): (k: nat)
    requires x in s
    ensures k < |s| && s[k] == x && x !in s[..k]
  {
    if s[0] == x then 0 else 1 + IndexOf(s[1..], x)
  }

  /**
   * The distinct elements of `s`, each kept at its first occurrence: the key
   * order of a Python dict (or the `seen` set pattern) filled from `s`.
   */
  function Distinct<T(==)>(s: seq<T>): (r: seq<T>)
    ensures NoDuplicates(r)
    ensures forall i :: 0 <= i < |r| ==> r[i] in s
    ensures forall i :: 0 <= i < |s| ==> s[i] in r
    ensures |r| <= |s|
  {
    if s == [] then []
    else
      var d := Distinct(s[..|s| - 1]);
      if s[|s| - 1] in d then d else d + [s[|s| - 1]]
  }

  lemma DistinctMembership<T>(s: seq<T>, x: T)
    ensures x in Distinct(s) <==> x in s
  {
    var d := Distinct(s);
    if x in s {
      var k :| 0 <= k < |s| && s[k] == x;
    }
    if x in d {
      var k :| 0 <= k < |d| && d[k] == x;
    }
  }

  /** Appending to `s` adds the new element to `Distinct(s)` exactly when it is new. */
  lemma DistinctAppend<T>(s: seq<T>, x: T)
    ensures Distinct(s + [x]) == if x in s then Distinct(s) else Distinct(s) + [x]
  {
    assert (s + [x])[..|s|] == s;
  }

  /** An element occurs at most once in a sequence without duplicates. */
  lemma {:induction false} NoDuplicatesCount<T>(s: seq<T>, x: T)
    requires NoDuplicates(s)
    ensures multiset(s)[x] <= 1
  {
    if s != [] {
      assert s == [s[0]] + s[1..];
      NoDuplicatesCount(s[1..], x);
      assert s[0] !in s[1..];
    }
  }

  /** An element found at two positions occurs at least twice. */
  lemma RepeatedCount<T>(s: seq<T>, i: nat, j: nat)
    requires i < j < |s|
    ensures s[i] == s[j] ==> multiset(s)[s[i]] >= 2
  {
    assert s == s[..j] + s[j..];
    assert s[i] in s[..j];
    assert s[j] == s[j..][0];
  }

  lemma {:induction false} IndexOfAppend<T>(s: seq<T>, x: T, y: T)
    requires y in s
    ensures y in s + [x] && IndexOf(s + [x], y) == IndexOf(s, y)
  {
    if s[0] != y {
      assert (s + [x])[1..] == s[1..] + [x];
      IndexOfAppend(s[1..], x, y);
    }
  }

  /** `Distinct` lists the elements in the order in which they first occur. */
  lemma {:induction false} DistinctFirstOccurrenceOrder<T>(s: seq<T>, i: nat, j: nat)
    requires i < j < |Distinct(s)|
    ensures IndexOf(s, Distinct(s)[i]) < IndexOf(s, Distinct(s)[j])
  {
    var p := s[..|s| - 1];
    var x := s[|s| - 1];
    var d := Distinct(p);
    assert s == p + [x];
    if x in d {
      DistinctFirstOccurrenceOrder(p, i, j);
      IndexOfAppend(p, x, d[i]);
      IndexOfAppend(p, x, d[j]);
    } else if j < |d| {
      DistinctFirstOccurrenceOrder(p, i, j);
      IndexOfAppend(p, x, d[i]);
      IndexOfAppend(p, x, d[j]);
    } else {
      IndexOfAppend(p, x, d[i]);
      assert x !in p;
    }
  }

  /** A sequence without duplicates is its own `Distinct`. */
  lemma {:induction false} DistinctOfNoDuplicates<T>(s: seq<T>)
    requires NoDuplicates(s)
    ensures Distinct(s) == s
  {
    if s != [] {
      var p := s[..|s| - 1];
      DistinctOfNoDuplicates(p);
      assert s[|s| - 1] !in p;
      assert s == p + [s[|s| - 1]];
    }
  }

  /** `a` is `b` with some elements left out: what a filter keeping the relative order returns. */
  predicate Subsequence<T(==)>(a: seq<T>, b: seq<T>)
    decreases |b|
  {
    if a == [] then true
    else if b == [] then false
    else (a[|a| - 1] == b[|b| - 1] && Subsequence(a[..|a| - 1], b[..|b| - 1])) || Subsequence(a, b[..|b| - 1])
  }

  /** Every element of a subsequence is an element of the sequence. */
  lemma {:induction false} SubsequenceMembers<T>(a: seq<T>, b: seq<T>)
    requires Subsequence(a, b)
    ensures forall x :: x in a ==> x in b
  {
    if a != [] {
      var b' := b[..|b| - 1];
      assert b == b' + [b[|b| - 1]];
      if a[|a| - 1] == b[|b| - 1] && Subsequence(a[..|a| - 1], b') {
        SubsequenceMembers(a[..|a| - 1], b');
        assert a == a[..|a| - 1] + [a[|a| - 1]];
      } else {
        SubsequenceMembers(a, b');
      }
    }
  }
}
