/**
 * The text-scanning fallbacks that recover a JSON value from model output
 * when the whole text does not parse: the regular expressions
 * `\[[\s\S]*\]` (agent A) and `\{[\s\S]*\}$` (agent C) under `re.search`.
 */
module JsonSpan {
  import opened Wrappers

  /** Position of the first `c` in `t`. */
  function FirstIndex(t: string, c: char): (r: Option<nat>)
    ensures r.None? <==> c !in t
    ensures r.Some? ==> r.value < |t| && t[r.value] == c && c !in t[..r.value]
  {
    if t == [] then None
    else if t[0] == c then Some(0)
    else
      var r := FirstIndex(t[1..], c);
      assert t == [t[0]] + t[1..];
      if r.None? then None
      else
        assert t[..r.value + 1] == [t[0]] + t[1..][..r.value];
        Some(r.value + 1)
  }

  /** Position of the last `c` in `t`. */
  function LastIndex(t: string, c: char): (r: Option<nat>)
    ensures r.None? <==> c !in t
    ensures r.Some? ==> r.value < |t| && t[r.value] == c && c !in t[r.value + 1..]
  {
    if t == [] then None
    else if t[|t| - 1] == c then Some(|t| - 1)
    else
      var p := t[..|t| - 1];
      var r := LastIndex(p, c);
      assert t == p + [t[|t| - 1]];
      if r.None? then None
      else
        assert t[r.value + 1..] == p[r.value + 1..] + [t[|t| - 1]];
        r
  }

  /**
   * `re.search(r"\[[\s\S]*\]", t)`: the match starts at the first `[` and,
   * the star being greedy, ends at the last `]`; there is no match unless
   * some `]` follows the first `[`.
   */
  function BracketSpan(t: string): Option<string> {
    var fi, li := FirstIndex(t, '['), LastIndex(t, ']');
    if fi.Some? && li.Some? && fi.value < li.value then Some(t[fi.value..li.value + 1]) else None
  }

  /** The span is found exactly when some `]` follows some `[`, and then runs from the first `[` to the last `]`. */
  lemma BracketSpanMeaning(t: string)
    ensures var r := BracketSpan(t);
      && (r.Some? <==> exists i, j :: 0 <= i < j < |t| && t[i] == '[' && t[j] == ']')
      && (r.Some? ==> exists i, j ::
            && 0 <= i < j < |t| && r.value == t[i..j + 1]
            && t[i] == '[' && '[' !in t[..i] && t[j] == ']' && ']' !in t[j + 1..])
  {
    var fi, li := FirstIndex(t, '['), LastIndex(t, ']');
    if !(fi.Some? && li.Some? && fi.value < li.value) {
      NoPairBeforeAfter(t, '[', ']');
    }
  }

  /** When the first `o` is not before the last `c`, no `o` is followed by a `c`. */
  lemma NoPairBeforeAfter(t: string, o: char, c: char)
    requires var fi, li := FirstIndex(t, o), LastIndex(t, c); !(fi.Some? && li.Some? && fi.value < li.value)
    ensures forall i, j :: 0 <= i < j < |t| && t[i] == o ==> t[j] != c
  {
    var fi, li := FirstIndex(t, o), LastIndex(t, c);
    forall i, j | 0 <= i < j < |t| && t[i] == o ensures t[j] != c {
      assert t[i] in t;
    }
  }

  /** Where `\}$` can match in `t`: a final `}`, or a `}` just before a final newline (the greedy star tries the later one first). */
  function ClosingBraceAtEnd(t: string): (r: Option<nat>)
    ensures r.Some? ==> r.value < |t| && t[r.value] == '}'
  {
    if |t| >= 1 && t[|t| - 1] == '}' then Some(|t| - 1)
    else if |t| >= 2 && t[|t| - 1] == '\n' && t[|t| - 2] == '}' then Some(|t| - 2)
    else None
  }

  /**
   * `re.search(r"\{[\s\S]*\}$", t)`: the match starts at the first `{` and
   * ends at the closing brace at the very end of the text.
   */
  function BraceSpanAtEnd(t: string): Option<string> {
    var fi, q := FirstIndex(t, '{'), ClosingBraceAtEnd(t);
    if fi.Some? && q.Some? && fi.value < q.value then Some(t[fi.value..q.value + 1]) else None
  }

  /**
   * The span, when found, starts at the first `{` and ends at the closing
   * brace at the end; a text that ends in neither `}` nor a newline has
   * none; and there is none exactly when there is no closing brace at the
   * end or no `{` before it.
   */
  lemma BraceSpanAtEndMeaning(t: string)
    ensures var r := BraceSpanAtEnd(t);
      && (r.Some? ==> ClosingBraceAtEnd(t).Some? && exists i ::
            && 0 <= i < ClosingBraceAtEnd(t).value && t[i] == '{' && '{' !in t[..i]
            && r.value == t[i..ClosingBraceAtEnd(t).value + 1])
      && ((|t| > 0 && t[|t| - 1] != '}' && t[|t| - 1] != '\n') ==> r.None?)
      && (r.None? <==> ClosingBraceAtEnd(t).None? || '{' !in t[..ClosingBraceAtEnd(t).value])
  {
    var fi, q := FirstIndex(t, '{'), ClosingBraceAtEnd(t);
    if !(fi.Some? && q.Some? && fi.value < q.value) {
      NoOpenBefore(t, q);
    }
  }

  lemma NoOpenBefore(t: string, q: Option<nat>)
    requires q.Some? ==> q.value < |t|
    requires var fi := FirstIndex(t, '{'); !(fi.Some? && q.Some? && fi.value < q.value)
    ensures q.Some? ==> '{' !in t[..q.value]
  {
    var fi := FirstIndex(t, '{');
    if q.Some? {
      forall k | 0 <= k < q.value ensures t[..q.value][k] != '{' {
        assert t[..q.value][k] == t[k];
      }
    }
  }

  /** The first `c` of `pre + rest` is the head of `rest` when `pre` has none. */
  lemma {:induction false} FirstIndexAfter(pre: string, rest: string, c: char)
    requires c !in pre && rest != [] && rest[0] == c
    ensures FirstIndex(pre + rest, c) == Some(|pre|)
  {
    if pre == [] {
      assert pre + rest == rest;
    } else {
      assert (pre + rest)[0] == pre[0];
      assert (pre + rest)[1..] == pre[1..] + rest;
      FirstIndexAfter(pre[1..], rest, c);
    }
  }

  /** The last `c` of `rest + post` is the end of `rest` when `post` has none. */
  lemma {:induction false} LastIndexBefore(rest: string, post: string, c: char)
    requires c !in post && rest != [] && rest[|rest| - 1] == c
    ensures LastIndex(rest + post, c) == Some(|rest| - 1)
  {
    if post == [] {
      assert rest + post == rest;
    } else {
      var t := rest + post;
      var p := post[..|post| - 1];
      assert t[|t| - 1] == post[|post| - 1];
      assert t[..|t| - 1] == rest + p;
      LastIndexBefore(rest, p, c);
    }
  }

  /** A bracketed array surrounded by text without brackets is the span found. */
  lemma BracketSpanOfWrapped(pre: string, arr: string, post: string)
    requires |arr| >= 2 && arr[0] == '[' && arr[|arr| - 1] == ']'
    requires '[' !in pre && ']' !in post
    ensures BracketSpan(pre + arr + post) == Some(arr)
  {
    var t := pre + arr + post;
    assert t == pre + (arr + post);
    FirstIndexAfter(pre, arr + post, '[');
    assert t == (pre + arr) + post;
    LastIndexBefore(pre + arr, post, ']');
    assert t[|pre|..|pre| + |arr|] == arr;
  }

  /** An object at the very end of a text whose prefix has no `{` is the span found. */
  lemma BraceSpanOfTrailing(pre: string, obj: string)
    requires |obj| >= 2 && obj[0] == '{' && obj[|obj| - 1] == '}'
    requires '{' !in pre
    ensures BraceSpanAtEnd(pre + obj) == Some(obj)
  {
    var t := pre + obj;
    FirstIndexAfter(pre, obj, '{');
    assert ClosingBraceAtEnd(t) == Some(|t| - 1);
    assert t[|pre|..|t|] == obj;
  }

  /** On text that does not end in a newline, the span found is a suffix from the first `{`, ending in `}`. */
  lemma BraceSpanOfUnterminated(t: string)
    requires t == [] || t[|t| - 1] != '\n'
    ensures BraceSpanAtEnd(t).Some? ==>
      && |t| >= 2 && t[|t| - 1] == '}'
      && exists i :: 0 <= i < |t| - 1 && t[i] == '{' && '{' !in t[..i] && BraceSpanAtEnd(t).value == t[i..]
    ensures (t == [] || t[|t| - 1] != '}') ==> BraceSpanAtEnd(t).None?
  {
    BraceSpanAtEndMeaning(t);
    if BraceSpanAtEnd(t).Some? {
      assert ClosingBraceAtEnd(t) == Some(|t| - 1);
      var i :| 0 <= i < |t| - 1 && t[i] == '{' && '{' !in t[..i] && BraceSpanAtEnd(t).value == t[i..|t|];
      assert t[i..|t|] == t[i..];
    }
  }
}
