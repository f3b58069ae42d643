/**
 * Whitespace handling shared by the agents and the chunker: Python's
 * `str.strip()`, `re.sub(r"\s+", " ", s)` and the `normalize_ws` and
 * `truncate` helpers built from them, plus the substring test `a in b`.
 */
module Text {
  import opened PySeq

  /** Python's `str.isspace()` for one character, which is also what `\s` matches in a `str` pattern. */
  predicate IsSpace(c: char) {
    || c == ' ' || ('\t' <= c <= '\r') || ('\U{1c}' <= c <= '\U{1f}')
    || c == '\U{85}' || c == '\U{a0}' || c == '\U{1680}'
    || ('\U{2000}' <= c <= '\U{200a}') || c == '\U{2028}' || c == '\U{2029}'
    || c == '\U{202f}' || c == '\U{205f}' || c == '\U{3000}'
  }

  /** The non-whitespace characters of `s`, in order; also Python's `re.sub(r"\s+", "", s)`. */
  function NonSpace(s: string): (r: string)
    ensures |r| <= |s|
    ensures forall i :: 0 <= i < |r| ==> !IsSpace(r[i])
  {
    if s == [] then []
    else if IsSpace(s[0]) then NonSpace(s[1..])
    else [s[0]] + NonSpace(s[1..])
  }

  lemma {:induction false} NonSpaceConcat(a: string, b: string)
    ensures NonSpace(a + b) == NonSpace(a) + NonSpace(b)
  {
    if a == [] {
      assert a + b == b;
    } else {
      assert (a + b)[0] == a[0];
      assert (a + b)[1..] == a[1..] + b;
      NonSpaceConcat(a[1..], b);
    }
  }

  /** `s` with its leading whitespace removed (Python's `lstrip()`). */
  function TrimLeft(s: string): (r: string)
    ensures |r| <= |s| && r == s[|s| - |r|..]
    ensures r == [] || !IsSpace(r[0])
    ensures forall i :: 0 <= i < |s| - |r| ==> IsSpace(s[i])
    ensures s != [] && IsSpace(s[0]) ==> |r| < |s|
  {
    if s != [] && IsSpace(s[0]) then TrimLeft(s[1..]) else s
  }

  /** `s` with its trailing whitespace removed (Python's `rstrip()`). */
  function TrimRight(s: string): (r: string)
    ensures |r| <= |s| && r == s[..|r|]
    ensures r == [] || !IsSpace(r[|r| - 1])
    ensures forall i :: |r| <= i < |s| ==> IsSpace(s[i])
  {
    if s != [] && IsSpace(s[|s| - 1]) then TrimRight(s[..|s| - 1]) else s
  }

  /** Python's `s.strip()`: the part of `s` between its leading and trailing whitespace. */
  function Strip(s: string): (r: string)
    ensures r == [] || (!IsSpace(r[0]) && !IsSpace(r[|r| - 1]))
    ensures |s| - |TrimLeft(s)| + |r| <= |s|
    ensures r == s[|s| - |TrimLeft(s)|..|s| - |TrimLeft(s)| + |r|]
  {
    var l := TrimLeft(s);
    var r := TrimRight(l);
    StripSlice(s, l, r);
    r
  }

  /** Trimming the right end of the left-trimmed `s` leaves a slice of `s`. */
  lemma StripSlice(s: string, l: string, r: string)
    requires |l| <= |s| && l == s[|s| - |l|..] && (l == [] || !IsSpace(l[0]))
    requires |r| <= |l| && r == l[..|r|]
    ensures |s| - |l| + |r| <= |s| && r == s[|s| - |l|..|s| - |l| + |r|]
    ensures r == [] || !IsSpace(r[0])
  {
  }

  lemma {:induction false} NonSpaceTrimLeft(s: string)
    ensures NonSpace(TrimLeft(s)) == NonSpace(s)
  {
    if s != [] && IsSpace(s[0]) { NonSpaceTrimLeft(s[1..]); }
  }

  lemma {:induction false} NonSpaceTrimRight(s: string)
    ensures NonSpace(TrimRight(s)) == NonSpace(s)
  {
    if s != [] && IsSpace(s[|s| - 1]) {
      var p := s[..|s| - 1];
      NonSpaceTrimRight(p);
      assert s == p + [s[|s| - 1]];
      NonSpaceConcat(p, [s[|s| - 1]]);
    }
  }

  /** Stripping keeps every non-whitespace character. */
  lemma NonSpaceStrip(s: string)
    ensures NonSpace(Strip(s)) == NonSpace(s)
  {
    NonSpaceTrimLeft(s);
    NonSpaceTrimRight(TrimLeft(s));
  }

  /** Every whitespace character of `t` is a plain space and no two whitespace characters are adjacent. */
  predicate SingleSpaced(t: string) {
    && (forall i :: 0 <= i < |t| && IsSpace(t[i]) ==> t[i] == ' ')
    && (forall i, j :: 0 <= i < |t| && 0 <= j < |t| && j == i + 1 ==> !(IsSpace(t[i]) && IsSpace(t[j])))
  }

  /** What `normalize_ws` produces: single-spaced, with nothing to strip at either end. */
  predicate IsNormalized(t: string) {
    SingleSpaced(t) && (t == [] || (!IsSpace(t[0]) && !IsSpace(t[|t| - 1])))
  }

  /** Python's `re.sub(r"\s+", " ", s)`: every maximal run of whitespace becomes one space. */
  function Collapse(s: string): (r: string)
    ensures s != [] && !IsSpace(s[0]) ==> r != [] && r[0] == s[0]
    ensures s == [] <==> r == []
    decreases |s|
  {
    if s == [] then []
    else if IsSpace(s[0]) then [' '] + Collapse(TrimLeft(s))
    else [s[0]] + Collapse(s[1..])
  }

  /** After collapsing, whitespace occurs only as single plain spaces. */
  lemma {:induction false} CollapseSingleSpaces(s: string)
    ensures SingleSpaced(Collapse(s))
    decreases |s|
  {
    if s != [] {
      if IsSpace(s[0]) {
        var t := TrimLeft(s);
        CollapseSingleSpaces(t);
        ConsSingleSpaced(' ', Collapse(t));
      } else {
        CollapseSingleSpaces(s[1..]);
        ConsSingleSpaced(s[0], Collapse(s[1..]));
      }
    }
  }

  /** A character in front of a single-spaced text keeps it single-spaced, unless it is whitespace and so is the text's first. */
  lemma ConsSingleSpaced(x: char, c: string)
    requires SingleSpaced(c)
    requires IsSpace(x) ==> x == ' ' && (c == [] || !IsSpace(c[0]))
    ensures SingleSpaced([x] + c)
  {
    var t := [x] + c;
    assert forall i :: 1 <= i < |t| ==> t[i] == c[i - 1];
  }

  /** Collapsing keeps every non-whitespace character, in order. */
  lemma {:induction false} NonSpaceCollapse(s: string)
    ensures NonSpace(Collapse(s)) == NonSpace(s)
    decreases |s|
  {
    if s != [] {
      if IsSpace(s[0]) {
        var t := TrimLeft(s);
        NonSpaceCollapse(t);
        NonSpaceTrimLeft(s);
        NonSpaceConcat([' '], Collapse(t));
      } else {
        NonSpaceCollapse(s[1..]);
        NonSpaceConcat([s[0]], Collapse(s[1..]));
        NonSpaceConcat([s[0]], s[1..]);
        assert s == [s[0]] + s[1..];
      }
    }
  }

  /** Any piece of a single-spaced text is single-spaced. */
  lemma SingleSpacedSlice(t: string, a: nat, b: nat)
    requires SingleSpaced(t) && a <= b <= |t|
    ensures SingleSpaced(t[a..b])
  {
    var u := t[a..b];
    forall i | 0 <= i < |u| - 1 ensures !(IsSpace(u[i]) && IsSpace(u[i + 1])) {
      assert u[i] == t[a + i] && u[i + 1] == t[a + i + 1];
    }
  }

  /** `normalize_ws(s)`: collapse whitespace runs to one space, then strip. */
  function NormalizeWs(s: string): string {
    Strip(Collapse(s))
  }

  /** The result of `normalize_ws` is normalized and has exactly the non-whitespace characters of its input. */
  lemma NormalizeWsMeaning(s: string)
    ensures IsNormalized(NormalizeWs(s))
    ensures NonSpace(NormalizeWs(s)) == NonSpace(s)
  {
    var c := Collapse(s);
    CollapseSingleSpaces(s);
    StripSingleSpaced(c);
    NonSpaceCollapse(s);
    NonSpaceStrip(c);
  }

  /** Stripping a single-spaced text normalizes it. */
  lemma StripSingleSpaced(c: string)
    requires SingleSpaced(c)
    ensures IsNormalized(Strip(c))
  {
    var a := |c| - |TrimLeft(c)|;
    var t := Strip(c);
    TrimmedSliceNormalized(c, a, a + |t|, t);
  }

  /** A slice of a single-spaced text with no whitespace at either end is normalized. */
  lemma TrimmedSliceNormalized(c: string, a: nat, b: nat, t: string)
    requires SingleSpaced(c) && a <= b <= |c| && t == c[a..b]
    requires t == [] || (!IsSpace(t[0]) && !IsSpace(t[|t| - 1]))
    ensures IsNormalized(t)
  {
    SingleSpacedSlice(c, a, b);
  }

  /** `Collapse` leaves a single-spaced text alone. */
  lemma {:induction false} CollapseSingleSpaced(t: string)
    requires SingleSpaced(t)
    ensures Collapse(t) == t
  {
    if t != [] {
      SingleSpacedSlice(t, 1, |t|);
      if IsSpace(t[0]) {
        assert |t| > 1 ==> !IsSpace(t[1]);
        assert TrimLeft(t) == t[1..];
      }
      CollapseSingleSpaced(t[1..]);
    }
  }

  /** Normalized text is a fixed point of `normalize_ws`. */
  lemma NormalizeWsOfNormalized(t: string)
    requires IsNormalized(t)
    ensures NormalizeWs(t) == t
  {
    CollapseSingleSpaced(t);
  }

  /** `normalize_ws` is idempotent. */
  lemma NormalizeWsIdempotent(s: string)
    ensures NormalizeWs(NormalizeWs(s)) == NormalizeWs(s)
  {
    NormalizeWsMeaning(s);
    NormalizeWsOfNormalized(NormalizeWs(s));
  }

  /**
   * The cut `truncate` makes: the text itself, or its first `max_len`
   * characters marked with "..." when it is longer than a non-zero
   * `max_len`. A negative `max_len` is always exceeded, and Python's
   * `s[:max_len]` then drops the last `-max_len` characters.
   */
  function Cut(n: string, maxLen: int): (r: string)
    ensures maxLen == 0 || |n| <= maxLen ==> r == n
    ensures 0 < maxLen < |n| ==> r == n[..maxLen] + "..." && |r| == maxLen + 3
    ensures maxLen < 0 ==> r == n[..Max(0, |n| + maxLen)] + "..."
    ensures maxLen > 0 ==> |r| <= maxLen + 3
  {
    if maxLen != 0 && |n| > maxLen then
      TakeBelow(n, maxLen);
      Take(n, maxLen) + "..."
    else n
  }

  /** `truncate(s, max_len)`: the normalized text, cut. */
  function Truncate(s: string, maxLen: int): string {
    Cut(NormalizeWs(s), maxLen)
  }

  lemma {:induction false} TrimLeftAppend(s: string, c: char)
    requires !IsSpace(c)
    ensures TrimLeft(s + [c]) == TrimLeft(s) + [c]
    decreases |s|
  {
    if s == [] {
      assert s + [c] == [c];
    } else {
      assert (s + [c])[0] == s[0];
      if IsSpace(s[0]) {
        assert (s + [c])[1..] == s[1..] + [c];
        TrimLeftAppend(s[1..], c);
      }
    }
  }

  lemma {:induction false} CollapseAppend(s: string, c: char)
    requires !IsSpace(c)
    ensures Collapse(s + [c]) == Collapse(s) + [c]
    decreases |s|
  {
    if s == [] {
      assert s + [c] == [c];
    } else if IsSpace(s[0]) {
      var t := TrimLeft(s);
      var u := s + [c];
      assert u[0] == s[0];
      TrimLeftAppend(s, c);
      assert TrimLeft(u) == t + [c];
      CollapseAppend(t, c);
      CollapseSpaceHead(u);
      CollapseSpaceHead(s);
      var x := Collapse(t);
      assert Collapse(u) == [' '] + (x + [c]);
      AppendAssoc([' '], x, [c]);
    } else {
      var u := s + [c];
      assert u[0] == s[0] && u[1..] == s[1..] + [c];
      CollapseAppend(s[1..], c);
      CollapseWordHead(u);
      CollapseWordHead(s);
    }
  }

  lemma AppendAssoc(a: string, b: string, c: string)
    ensures a + (b + c) == (a + b) + c
  {
  }

  lemma CollapseSpaceHead(s: string)
    requires s != [] && IsSpace(s[0])
    ensures Collapse(s) == [' '] + Collapse(TrimLeft(s))
  {
  }

  lemma CollapseWordHead(s: string)
    requires s != [] && !IsSpace(s[0])
    ensures Collapse(s) == [s[0]] + Collapse(s[1..])
  {
  }

  /** A text ending in a non-whitespace character still ends in it after `normalize_ws`. */
  lemma NormalizeWsKeepsLast(s: string, c: char)
    requires !IsSpace(c)
    ensures var r := NormalizeWs(s + [c]); |r| > 0 && r[|r| - 1] == c
  {
    CollapseAppend(s, c);
    var x := Collapse(s) + [c];
    var l := TrimLeft(x);
    assert |l| > 0 && l[|l| - 1] == c;
    assert TrimRight(l) == l;
  }

  /** Python's `s.lower()` on the ASCII letters. */
  function AsciiLower(s: string): (r: string)
    ensures |r| == |s|
    ensures forall i :: 0 <= i < |s| ==> r[i] == (if 'A' <= s[i] <= 'Z' then (s[i] as int + 32) as char else s[i])
  {
    if s == [] then []
    else [if 'A' <= s[0] <= 'Z' then (s[0] as int + 32) as char else s[0]] + AsciiLower(s[1..])
  }

  /** `needle` occurs in `hay` starting at position `i`. */
  predicate OccursAt(hay: string, needle: string, i: nat) {
    i + |needle| <= |hay| && hay[i..i + |needle|] == needle
  }

  lemma OccursAtShift(hay: string, needle: string)
    requires hay != []
    ensures forall i: nat :: OccursAt(hay[1..], needle, i) <==> OccursAt(hay, needle, i + 1)
  {
    forall i: nat ensures OccursAt(hay[1..], needle, i) <==> OccursAt(hay, needle, i + 1) {
      if i + |needle| <= |hay| - 1 {
        assert hay[1..][i..i + |needle|] == hay[i + 1..i + 1 + |needle|];
      }
    }
  }

  /** Python's `needle in hay` on strings, as a scan over the start positions. */
  function Contains(hay: string, needle: string): (r: bool)
    ensures r <==> exists i: nat :: OccursAt(hay, needle, i)
    decreases |hay|
  {
    if |needle| > |hay| then false
    else if hay[..|needle|] == needle then assert OccursAt(hay, needle, 0); true
    else
      OccursAtShift(hay, needle);
      assert forall i: nat :: OccursAt(hay, needle, i) ==> i > 0 && OccursAt(hay[1..], needle, i - 1);
      Contains(hay[1..], needle)
  }
}
