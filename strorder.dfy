/**
 * Python's ordering of `str` values (code point by code point, a proper
 * prefix first) and `sorted(set(xs))` for a list of strings.
 */
module StrOrder {

  /** `a < b` on Python strings. */
  predicate Less(a: string, b: string)
    decreases |a|
  {
    if a == [] then b != []
    else if b == [] then false
    else if a[0] != b[0] then a[0] < b[0]
    else Less(a[1..], b[1..])
  }

  lemma {:induction false} LessIrreflexive(a: string)
    ensures !Less(a, a)
  {
    if a != [] { LessIrreflexive(a[1..]); }
  }

  lemma {:induction false} LessTransitive(a: string, b: string, c: string)
    requires Less(a, b) && Less(b, c)
    ensures Less(a, c)
    decreases |a|
  {
    if a != [] && b != [] && c != [] && a[0] == b[0] && b[0] == c[0] {
      LessTransitive(a[1..], b[1..], c[1..]);
    }
  }

  lemma {:induction false} LessTotal(a: string, b: string)
    requires a != b
    ensures Less(a, b) || Less(b, a)
    decreases |a|
  {
    if a != [] && b != [] && a[0] == b[0] {
      assert a == [a[0]] + a[1..] && b == [b[0]] + b[1..];
      LessTotal(a[1..], b[1..]);
    }
  }

  lemma {:induction false} LessAsymmetric(a: string, b: string)
    requires Less(a, b)
    ensures !Less(b, a)
  {
    if Less(b, a) {
      LessTransitive(a, b, a);
      LessIrreflexive(a);
    }
  }

  /** Every element is smaller than every later one: sorted and free of duplicates. */
  predicate StrictlySorted(s: seq<string>) {
    forall i, j :: 0 <= i < j < |s| ==> Less(s[i], s[j])
  }

  /** Insert `x` into a strictly sorted list unless it is already there. */
  function InsertUnique(s: seq<string>, x: string): (r: seq<string>)
    requires StrictlySorted(s)
    ensures StrictlySorted(r)
    ensures forall y :: y in r <==> y in s || y == x
  {
    if s == [] then [x]
    else if x == s[0] then s
    else if Less(x, s[0]) then
      assert forall j :: 0 <= j < |s| ==> Less(x, s[j]) by {
        forall j | 0 < j < |s| ensures Less(x, s[j]) { LessTransitive(x, s[0], s[j]); }
      }
      [x] + s
    else
      LessTotal(x, s[0]);
      var t := InsertUnique(s[1..], x);
      assert forall y :: y in t ==> Less(s[0], y);
      [s[0]] + t
  }

  /** Python's `sorted(set(xs))` for a list of strings. */
  function SortedUnique(xs: seq<string>): (r: seq<string>)
    ensures StrictlySorted(r)
    ensures forall y :: y in r <==> y in xs
  {
    if xs == [] then []
    else InsertUnique(SortedUnique(xs[..|xs| - 1]), xs[|xs| - 1])
  }

  /** A set of strings has exactly one strictly sorted listing. */
  lemma {:induction false} StrictlySortedUnique(s: seq<string>, t: seq<string>)
    requires StrictlySorted(s) && StrictlySorted(t)
    requires forall y :: y in s <==> y in t
    ensures s == t
  {
    if s != [] && t != [] {
      assert s == [s[0]] + s[1..] && t == [t[0]] + t[1..];
      assert s[0] in t && t[0] in s;
      if s[0] != t[0] {
        var k :| 0 <= k < |t| && t[k] == s[0];
        var m :| 0 <= m < |s| && s[m] == t[0];
        assert k > 0 && m > 0;
        LessAsymmetric(t[0], t[k]);
      } else {
        forall y ensures y in s[1..] <==> y in t[1..] {
          if y in s[1..] {
            var k :| 1 <= k < |s| && s[k] == y;
            assert Less(s[0], s[k]);
            LessIrreflexive(s[0]);
            assert y != t[0] && y in t;
          }
          if y in t[1..] {
            var k :| 1 <= k < |t| && t[k] == y;
            assert Less(t[0], t[k]);
            LessIrreflexive(t[0]);
            assert y != s[0] && y in s;
          }
        }
        StrictlySortedUnique(s[1..], t[1..]);
      }
    } else {
      SameElementsBothEmpty(s, t);
    }
  }

  lemma SameElementsBothEmpty(s: seq<string>, t: seq<string>)
    requires forall y :: y in s <==> y in t
    ensures s == [] <==> t == []
  {
    if s != [] { assert s[0] in t; }
    if t != [] { assert t[0] in s; }
  }
}
