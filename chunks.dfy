/**
 * The chunker that prepares report pages for the index: a page's text is
 * split into sentences at the full-width stops 。；！？, and every window of
 * consecutive sentences that is neither too short nor too long becomes one
 * chunk.
 */
module Chunks {
  import opened Wrappers
  import opened PySeq
  import opened Text

  /** The sentences of each window, and the step between windows, that the index is built with. */
  const DefaultWindow := 3
  const DefaultStride := 1

  /** A chunk is kept when its normalized length lies between these two bounds. */
  const MinChunkLen := 50
  const MaxChunkLen := 800

  /** The characters of the class `[。；！？]`. */
  predicate IsStop(c: char) {
    c == '。' || c == '；' || c == '！' || c == '？'
  }

  predicate NoStop(s: string) {
    forall i :: 0 <= i < |s| ==> !IsStop(s[i])
  }

  /** The number of sentence stops in `s`. */
  function StopCount(s: string): nat {
    if s == [] then 0 else (if IsStop(s[0]) then 1 else 0) + StopCount(s[1..])
  }

  /** `s` with every sentence stop removed. */
  function RemoveStops(s: string): string {
    if s == [] then [] else (if IsStop(s[0]) then [] else [s[0]]) + RemoveStops(s[1..])
  }

  /** The concatenation of `parts`, Python's `"".join(parts)`. */
  function Concat(parts: seq<string>): string {
    if parts == [] then [] else parts[0] + Concat(parts[1..])
  }

  /** `re.split(r"[。；！？]", s)`: the pieces between stops, empty ones included; the first piece is a prefix of `s`. */
  function Pieces(s: string): (r: seq<string>)
    ensures |r| >= 1
    ensures |r[0]| <= |s| && r[0] == s[..|r[0]|]
  {
    if s == [] then [""]
    else
      var rest := Pieces(s[1..]);
      if IsStop(s[0]) then [""] + rest
      else [[s[0]] + rest[0]] + rest[1..]
  }

  /**
   * A split yields one more piece than there are stops, no piece holds a
   * stop, and the pieces put back together are `s` without its stops.
   */
  lemma {:induction false} PiecesMeaning(s: string)
    ensures |Pieces(s)| == StopCount(s) + 1
    ensures forall k :: 0 <= k < |Pieces(s)| ==> NoStop(Pieces(s)[k])
    ensures Concat(Pieces(s)) == RemoveStops(s)
  {
    if s != [] {
      var rest := Pieces(s[1..]);
      PiecesMeaning(s[1..]);
      if IsStop(s[0]) {
        assert Pieces(s) == [""] + rest;
        assert ([""] + rest)[1..] == rest;
      } else {
        var r := Pieces(s);
        assert r == [[s[0]] + rest[0]] + rest[1..];
        assert r[1..] == rest[1..];
        assert forall k :: 1 <= k < |r| ==> r[k] == rest[k];
        assert Concat(rest) == rest[0] + Concat(rest[1..]);
        assert Concat(r) == ([s[0]] + rest[0]) + Concat(rest[1..]);
        assert Concat(r) == [s[0]] + (rest[0] + Concat(rest[1..]));
      }
    }
  }

  /** The pieces of a single-spaced text are single-spaced. */
  lemma {:induction false} PiecesSingleSpaced(s: string)
    requires SingleSpaced(s)
    ensures forall k :: 0 <= k < |Pieces(s)| ==> SingleSpaced(Pieces(s)[k])
  {
    if s != [] {
      var rest := Pieces(s[1..]);
      SingleSpacedSlice(s, 1, |s|);
      assert s[1..|s|] == s[1..];
      PiecesSingleSpaced(s[1..]);
      if !IsStop(s[0]) {
        assert [s[0]] + rest[0] == s[..1 + |rest[0]|];
        SingleSpacedSlice(s, 0, 1 + |rest[0]|);
        assert s[0..1 + |rest[0]|] == s[..1 + |rest[0]|];
      }
    }
  }

  /** `[p.strip() for p in pieces if p.strip()]`. */
  function KeepStripped(pieces: seq<string>): seq<string> {
    if pieces == [] then []
    else (var t := Strip(pieces[0]); if t != [] then [t] else []) + KeepStripped(pieces[1..])
  }

  /** `split_sentences(text)`: normalize the whitespace, split at the stops, strip each piece and drop the empty ones. */
  function SplitSentences(text: string): seq<string> {
    KeepStripped(Pieces(NormalizeWs(text)))
  }

  /** A piece between two stops once the whitespace is collapsed: single-spaced, without stops. */
  predicate IsPiece(p: string) {
    SingleSpaced(p) && NoStop(p)
  }

  /** A sentence as `split_sentences` returns it: non-empty, normalized, without stops. */
  predicate IsSentence(s: string) {
    s != [] && IsNormalized(s) && NoStop(s)
  }

  /** Stripping a piece leaves a normalized text without stops. */
  lemma StripPiece(p: string)
    requires IsPiece(p)
    ensures Strip(p) != [] ==> IsSentence(Strip(p))
  {
    var a := |p| - |TrimLeft(p)|;
    var t := Strip(p);
    StripSingleSpaced(p);
    SliceNoStop(p, a, a + |t|, t);
  }

  /** A slice of a text without stops has none. */
  lemma SliceNoStop(p: string, a: nat, b: nat, t: string)
    requires NoStop(p) && a <= b <= |p| && t == p[a..b]
    ensures NoStop(t)
  {
    forall i | 0 <= i < |t| ensures !IsStop(t[i]) {
      assert t[i] == p[a + i];
    }
  }

  lemma {:induction false} KeepStrippedProperties(pieces: seq<string>)
    requires forall k :: 0 <= k < |pieces| ==> IsPiece(pieces[k])
    ensures forall k :: 0 <= k < |KeepStripped(pieces)| ==> IsSentence(KeepStripped(pieces)[k])
  {
    if pieces != [] {
      var rest := pieces[1..];
      assert forall k :: 0 <= k < |rest| ==> rest[k] == pieces[k + 1];
      KeepStrippedProperties(rest);
      StripPiece(pieces[0]);
      ConsSentences(Strip(pieces[0]), KeepStripped(rest), KeepStripped(pieces));
    }
  }

  /** Putting a sentence, or nothing, in front of a list of sentences gives a list of sentences. */
  lemma ConsSentences(t: string, tail: seq<string>, out: seq<string>)
    requires t != [] ==> IsSentence(t)
    requires forall k :: 0 <= k < |tail| ==> IsSentence(tail[k])
    requires out == (if t != [] then [t] else []) + tail
    ensures forall k :: 0 <= k < |out| ==> IsSentence(out[k])
  {
    forall k | 0 <= k < |out| ensures IsSentence(out[k]) {
      if t != [] && k > 0 {
        assert out[k] == tail[k - 1];
      }
    }
  }


  /**
   * Every sentence is non-empty, begins and ends with a non-whitespace
   * character (so it is not whitespace only), is already normalized, and
   * holds none of 。；！？.
   */
  lemma SplitSentencesProperties(text: string)
    ensures forall k :: 0 <= k < |SplitSentences(text)| ==>
      var s := SplitSentences(text)[k];
      && s != [] && !IsSpace(s[0]) && !IsSpace(s[|s| - 1])
      && IsNormalized(s) && NormalizeWs(s) == s && Strip(s) == s
      && NoStop(s)
  {
    SentencesShape(text);
    forall k | 0 <= k < |SplitSentences(text)| {
      SentenceFixed(SplitSentences(text)[k]);
    }
  }

  lemma SentencesShape(text: string)
    ensures forall k :: 0 <= k < |SplitSentences(text)| ==> IsSentence(SplitSentences(text)[k])
  {
    var n := NormalizeWs(text);
    NormalizeWsMeaning(text);
    PiecesArePieces(n);
    KeepStrippedProperties(Pieces(n));
  }

  /** Splitting a single-spaced text at its stops gives single-spaced pieces without stops. */
  lemma PiecesArePieces(s: string)
    requires SingleSpaced(s)
    ensures forall k :: 0 <= k < |Pieces(s)| ==> IsPiece(Pieces(s)[k])
  {
    PiecesMeaning(s);
    PiecesSingleSpaced(s);
  }

  /** A normalized sentence is left alone by both `strip` and `normalize_ws`. */
  lemma SentenceFixed(s: string)
    requires s != [] && IsNormalized(s)
    ensures NormalizeWs(s) == s && Strip(s) == s
  {
    NormalizeWsOfNormalized(s);
  }

  lemma {:induction false} NonSpaceKeepStripped(pieces: seq<string>)
    ensures NonSpace(Concat(KeepStripped(pieces))) == NonSpace(Concat(pieces))
  {
    if pieces != [] {
      var p, t := pieces[0], Strip(pieces[0]);
      var tail := KeepStripped(pieces[1..]);
      NonSpaceKeepStripped(pieces[1..]);
      NonSpaceStrip(p);
      NonSpaceConcat(p, Concat(pieces[1..]));
      if t != [] {
        assert KeepStripped(pieces) == [t] + tail;
        assert Concat([t] + tail) == t + Concat(tail) by {
          assert ([t] + tail)[1..] == tail;
        }
        NonSpaceConcat(t, Concat(tail));
      } else {
        assert KeepStripped(pieces) == tail;
      }
    }
  }

  lemma {:induction false} NonSpaceRemoveStops(s: string)
    ensures NonSpace(RemoveStops(s)) == RemoveStops(NonSpace(s))
  {
    if s != [] {
      NonSpaceRemoveStops(s[1..]);
      var h := if IsStop(s[0]) then [] else [s[0]];
      NonSpaceConcat(h, RemoveStops(s[1..]));
      if !IsSpace(s[0]) {
        assert NonSpace(s) == [s[0]] + NonSpace(s[1..]);
        assert ([s[0]] + NonSpace(s[1..]))[1..] == NonSpace(s[1..]);
      }
    }
  }

  /** Splitting loses nothing but whitespace and the stops: the sentences hold the text's other characters, in order. */
  lemma SplitSentencesKeepsText(text: string)
    ensures NonSpace(Concat(SplitSentences(text))) == RemoveStops(NonSpace(text))
  {
    var n := NormalizeWs(text);
    NonSpaceKeepStripped(Pieces(n));
    PiecesMeaning(n);
    NonSpaceRemoveStops(n);
    NormalizeWsMeaning(text);
  }

  /** `"。".join(ws) + "。"`: the sentences of one window joined by full stops, with one more at the end. */
  function Closed(ws: seq<string>): string {
    Join(ws, "。") + "。"
  }

  /**
   * The window starting at sentence `i`, put through `norm`:
   * `normalize_ws("。".join(sents[i:i+window]) + "。")` when `norm` is
   * `NormalizeWs`, which is what the chunker uses.
   */
  function Window(sents: seq<string>, window: int, i: int, norm: string -> string): string {
    norm(Closed(Slice(sents, i, i + window)))
  }

  predicate Kept(c: string) {
    MinChunkLen <= |c| <= MaxChunkLen
  }

  /** What the length filter appends for one window. */
  function Emit(c: string): seq<string> {
    if Kept(c) then [c] else []
  }

  /** `max(0, len(sents) - window + 1)`, the end of the range of window starts. */
  function StartsEnd(sents: seq<string>, window: int): nat {
    Max(0, |sents| - window + 1)
  }

  /** The `k`-th start of `range(i, stop, stride)`, counted out one stride at a time. */
  function Start(i: int, stride: int, k: nat): int {
    if k == 0 then i else Start(i, stride, k - 1) + stride
  }

  /** The `k`-th start is `i + k*stride`. */
  lemma {:induction false} StartValue(i: int, stride: int, k: nat)
    ensures Start(i, stride, k) == i + k * stride
  {
    if k > 0 {
      StartValue(i, stride, k - 1);
      assert (k - 1) * stride + stride == k * stride;
    }
  }

  lemma {:induction false} StartNext(i: int, stride: int, k: nat)
    ensures Start(i + stride, stride, k) == Start(i, stride, k + 1)
  {
    if k > 0 {
      StartNext(i, stride, k - 1);
    }
  }

  lemma {:induction false} StartAtLeast(i: int, stride: int, k: nat)
    requires stride > 0
    ensures Start(i, stride, k) >= i
  {
    if k > 0 {
      StartAtLeast(i, stride, k - 1);
    }
  }

  /** The chunker's windows as a function of the start. */
  function WindowAt(sents: seq<string>, window: int, norm: string -> string): int -> string {
    j => Window(sents, window, j, norm)
  }

  /**
   * The kept windows `win(j)` for the starts `j` = `i`, `i + stride`,
   * `i + 2*stride`, … below `stop`, in that order.
   */
  function ChunksFrom(win: int -> string, stride: int, i: int, stop: int): seq<string>
    requires stride > 0
    decreases stop - i
  {
    if i >= stop then []
    else Emit(win(i)) + ChunksFrom(win, stride, i + stride, stop)
  }

  /**
   * `make_chunks(sents, window, stride)` with `norm` for `normalize_ws`.
   * A zero stride makes `range` raise, shown as `None`; a negative one
   * gives an empty range.
   */
  function MakeChunksSpec(sents: seq<string>, window: int, stride: int, norm: string -> string): Option<seq<string>> {
    if stride == 0 then None
    else if stride < 0 then Some([])
    else Some(ChunksFrom(WindowAt(sents, window, norm), stride, 0, StartsEnd(sents, window)))
  }

  /** `make_chunks`: the stride loop, appending each window that passes the length filter. */
  method MakeChunks(sents: seq<string>, window: int, stride: int, norm: string -> string) returns (r: Option<seq<string>>)
    ensures r == MakeChunksSpec(sents, window, stride, norm)
  {
    if stride == 0 {
      return None;
    }
    var chunks: seq<string> := [];
    if stride > 0 {
      ghost var win := WindowAt(sents, window, norm);
      var stop := Max(0, |sents| - window + 1);
      ghost var full := ChunksFrom(win, stride, 0, stop);
      ghost var rest := full;
      var i := 0;
      while i < stop
        invariant 0 <= i
        invariant rest == ChunksFrom(win, stride, i, stop)
        invariant chunks + rest == full
        decreases stop - i
      {
        var chunk := Closed(Slice(sents, i, i + window));
        chunk := norm(chunk);
        ghost var before := chunks;
        if MinChunkLen <= |chunk| <= MaxChunkLen {
          chunks := chunks + [chunk];
        }
        var next := i + stride;
        rest := AppendStep(before, chunks, rest, full, win, stride, i, next, stop);
        i := next;
      }
      assert rest == [];
      assert chunks + [] == chunks;
    }
    return Some(chunks);
  }

  /** One turn of the loop in `MakeChunks`: appending what the filter lets through for start `i` leaves the rest to the later starts. */
  lemma AppendStep(before: seq<string>, after: seq<string>, rest: seq<string>, full: seq<string>,
                   win: int -> string, stride: int, i: int, next: int, stop: int)
    returns (rest': seq<string>)
    requires stride > 0 && i < stop && next == i + stride
    requires rest == ChunksFrom(win, stride, i, stop) && before + rest == full
    requires after == if Kept(win(i)) then before + [win(i)] else before
    ensures rest' == ChunksFrom(win, stride, next, stop)
    ensures after + rest' == full
  {
    rest' := ChunksFrom(win, stride, next, stop);
    var e := Emit(win(i));
    assert rest == e + rest';
    assert before + (e + rest') == (before + e) + rest';
  }

  /** `c` is the window at the `k`-th start of `range(i, stop, stride)` and passes the length filter. */
  predicate ChunkAt(win: int -> string, stride: int, i: int, stop: int, k: nat, c: string) {
    Start(i, stride, k) < stop && c == win(Start(i, stride, k)) && Kept(c)
  }

  /**
   * A text is kept exactly when it is the window at some start of
   * `range(i, stop, stride)` and its length is within the bounds.
   */
  lemma ChunksFromMembers(win: int -> string, stride: int, i: int, stop: int, c: string)
    requires stride > 0
    ensures c in ChunksFrom(win, stride, i, stop) <==> exists k: nat :: ChunkAt(win, stride, i, stop, k, c)
  {
    if c in ChunksFrom(win, stride, i, stop) {
      var k := ChunksFromSound(win, stride, i, stop, c);
      assert ChunkAt(win, stride, i, stop, k, c);
    }
    forall k: nat | ChunkAt(win, stride, i, stop, k, c) ensures c in ChunksFrom(win, stride, i, stop) {
      ChunksFromComplete(win, stride, i, stop, k, c);
    }
  }

  /** Every chunk is the kept window at some start of the range; `k` says which. */
  lemma {:induction false} ChunksFromSound(win: int -> string, stride: int, i: int, stop: int, c: string) returns (k: nat)
    requires stride > 0
    requires c in ChunksFrom(win, stride, i, stop)
    ensures ChunkAt(win, stride, i, stop, k, c)
    decreases stop - i
  {
    assert i < stop;
    ChunksFromUnfold(win, stride, i, stop);
    if c in Emit(win(i)) {
      k := 0;
      assert Start(i, stride, 0) == i;
    } else {
      var k' := ChunksFromSound(win, stride, i + stride, stop, c);
      StartNext(i, stride, k');
      k := k' + 1;
    }
  }

  /** Every kept window at a start of the range is a chunk. */
  lemma {:induction false} ChunksFromComplete(win: int -> string, stride: int, i: int, stop: int, k: nat, c: string)
    requires stride > 0
    requires ChunkAt(win, stride, i, stop, k, c)
    ensures c in ChunksFrom(win, stride, i, stop)
    decreases k
  {
    StartAtLeast(i, stride, k);
    ChunksFromUnfold(win, stride, i, stop);
    if k == 0 {
      assert Emit(win(i)) == [c];
    } else {
      StartNext(i, stride, k - 1);
      ChunksFromComplete(win, stride, i + stride, stop, k - 1, c);
    }
  }

  /** One step of the range, with membership split over the two parts. */
  lemma ChunksFromUnfold(win: int -> string, stride: int, i: int, stop: int)
    requires stride > 0 && i < stop
    ensures forall c :: c in ChunksFrom(win, stride, i, stop) <==> c in Emit(win(i)) || c in ChunksFrom(win, stride, i + stride, stop)
  {
  }

  /** Every chunk of `ChunksFrom` lies within the length bounds, and there are at most `stop - i` of them. */
  lemma {:induction false} ChunksFromBounds(win: int -> string, stride: int, i: int, stop: int)
    requires stride > 0
    ensures |ChunksFrom(win, stride, i, stop)| <= Max(0, stop - i)
    ensures forall k :: 0 <= k < |ChunksFrom(win, stride, i, stop)| ==> Kept(ChunksFrom(win, stride, i, stop)[k])
    decreases stop - i
  {
    if i < stop {
      ChunksFromBounds(win, stride, i + stride, stop);
    }
  }

  /**
   * The properties of `make_chunks` for a positive stride: every chunk's
   * length is within [50, 800], every chunk is normalized (so its length
   * is the one measured after `normalize_ws`) and ends with "。", there
   * are at most `max(0, len(sents) - window + 1)` chunks, and none when
   * there are fewer sentences than the window holds.
   */
  lemma MakeChunksProperties(sents: seq<string>, window: int, stride: int)
    requires stride > 0
    ensures MakeChunksSpec(sents, window, stride, NormalizeWs).Some?
    ensures var r := MakeChunksSpec(sents, window, stride, NormalizeWs).value;
      && |r| <= Max(0, |sents| - window + 1)
      && (|sents| < window ==> r == [])
      && forall k :: 0 <= k < |r| ==> Kept(r[k]) && ChunkShaped(r[k])
  {
    var win, stop := WindowAt(sents, window, NormalizeWs), StartsEnd(sents, window);
    ChunksFromBounds(win, stride, 0, stop);
    WindowsShaped(sents, window);
    ChunksShape(win, stride, 0, stop);
  }

  /** `normalize_ws` leaves every chunk as it is. */
  lemma MakeChunksFixed(sents: seq<string>, window: int, stride: int, k: nat)
    requires stride > 0 && k < |MakeChunksSpec(sents, window, stride, NormalizeWs).value|
    ensures var c := MakeChunksSpec(sents, window, stride, NormalizeWs).value[k];
      NormalizeWs(c) == c
  {
    MakeChunksProperties(sents, window, stride);
    var c := MakeChunksSpec(sents, window, stride, NormalizeWs).value[k];
    assert ChunkShaped(c);
    NormalizeWsOfNormalized(c);
  }

  /** What `make_chunks` stores: a normalized text ending with "。". */
  predicate ChunkShaped(c: string) {
    IsNormalized(c) && |c| > 0 && c[|c| - 1] == '。'
  }

  /** Every window `win` yields is chunk-shaped. */
  ghost predicate AllShaped(win: int -> string) {
    forall j :: ChunkShaped(win(j))
  }

  /** The chunker's windows, normalized by `normalize_ws`, are all chunk-shaped. */
  lemma WindowsShaped(sents: seq<string>, window: int)
    ensures AllShaped(WindowAt(sents, window, NormalizeWs))
  {
    var win := WindowAt(sents, window, NormalizeWs);
    forall j ensures ChunkShaped(win(j)) {
      WindowShape(Slice(sents, j, j + window));
    }
  }

  /** When every window is chunk-shaped, so is every chunk. */
  lemma {:induction false} ChunksShape(win: int -> string, stride: int, i: int, stop: int)
    requires stride > 0 && AllShaped(win)
    ensures forall k :: 0 <= k < |ChunksFrom(win, stride, i, stop)| ==> ChunkShaped(ChunksFrom(win, stride, i, stop)[k])
    decreases stop - i
  {
    if i < stop {
      ChunksShape(win, stride, i + stride, stop);
      assert ChunkShaped(win(i));
    }
  }

  /** A window's sentences, closed and normalized, are chunk-shaped. */
  lemma WindowShape(ws: seq<string>)
    ensures ChunkShaped(NormalizeWs(Closed(ws)))
  {
    ClosedEndsWithStop(ws);
    NormalizeWsMeaning(Closed(ws));
  }

  /** A normalized window still ends with its closing "。". */
  lemma ClosedEndsWithStop(ws: seq<string>)
    ensures var r := NormalizeWs(Closed(ws)); |r| > 0 && r[|r| - 1] == '。'
  {
    assert Closed(ws) == Join(ws, "。") + ['。'];
    NormalizeWsKeepsLast(Join(ws, "。"), '。');
  }

  /**
   * For a positive stride, the chunks are exactly the kept windows that
   * start at a multiple of the stride below `max(0, len(sents) - window + 1)`,
   * whatever the normalizer.
   */
  lemma MakeChunksMembers(sents: seq<string>, window: int, stride: int, norm: string -> string, c: string)
    requires stride > 0
    ensures c in MakeChunksSpec(sents, window, stride, norm).value <==>
      exists k: nat :: && Start(0, stride, k) < StartsEnd(sents, window)
                       && c == Window(sents, window, Start(0, stride, k), norm) && Kept(c)
  {
    var win, stop := WindowAt(sents, window, norm), StartsEnd(sents, window);
    if c in ChunksFrom(win, stride, 0, stop) {
      var k := ChunksFromSound(win, stride, 0, stop, c);
      assert win(Start(0, stride, k)) == Window(sents, window, Start(0, stride, k), norm);
      assert Start(0, stride, k) < stop && c == Window(sents, window, Start(0, stride, k), norm) && Kept(c);
    }
    forall k: nat | Start(0, stride, k) < stop && c == Window(sents, window, Start(0, stride, k), norm) && Kept(c)
      ensures c in ChunksFrom(win, stride, 0, stop)
    {
      assert win(Start(0, stride, k)) == Window(sents, window, Start(0, stride, k), norm);
      ChunksFromComplete(win, stride, 0, stop, k, c);
    }
  }

  /** With the stride of 1 the index uses, every start in the range is tried. */
  lemma StrideOneStarts(j: nat)
    ensures Start(0, 1, j) == j
  {
    StartValue(0, 1, j);
  }

  /** A zero stride raises, a negative stride gives no chunks. */
  lemma MakeChunksBadStride(sents: seq<string>, window: int, stride: int, norm: string -> string)
    requires stride <= 0
    ensures MakeChunksSpec(sents, window, stride, norm) == if stride == 0 then None else Some([])
  {
  }

  /** Gluing two normalized texts with one non-whitespace character gives a normalized text. */
  lemma Glue(a: string, c: char, b: string)
    requires IsNormalized(a) && IsNormalized(b) && !IsSpace(c)
    ensures IsNormalized(a + [c] + b)
  {
    var g := a + [c] + b;
    forall i | 0 <= i < |g| - 1 ensures !(IsSpace(g[i]) && IsSpace(g[i + 1])) {
      if i < |a| - 1 {
        assert g[i] == a[i] && g[i + 1] == a[i + 1];
      } else if |a| + 1 <= i {
        assert g[i] == b[i - |a| - 1] && g[i + 1] == b[i - |a|];
      }
    }
    forall i | 0 <= i < |g| && IsSpace(g[i]) ensures g[i] == ' ' {
      if i < |a| {
        assert g[i] == a[i];
      } else if |a| < i {
        assert g[i] == b[i - |a| - 1];
      }
    }
  }

  /** Closing normalized sentences with full stops gives a normalized text. */
  lemma {:induction false} ClosedNormalized(ws: seq<string>)
    requires forall k :: 0 <= k < |ws| ==> IsNormalized(ws[k])
    ensures IsNormalized(Closed(ws))
    decreases |ws|
  {
    if |ws| == 0 {
      assert Closed(ws) == ['。'];
    } else if |ws| == 1 {
      Glue(ws[0], '。', []);
      assert Closed(ws) == ws[0] + ['。'] + [];
    } else {
      ClosedNormalized(ws[1..]);
      Glue(ws[0], '。', Closed(ws[1..]));
      assert Closed(ws) == ws[0] + ['。'] + Closed(ws[1..]);
    }
  }

  /**
   * For sentences from `split_sentences`, the `normalize_ws` applied to
   * each window changes nothing: a chunk is the window's sentences joined
   * and closed by "。".
   */
  lemma WindowOfSplitSentences(text: string, window: int, i: int)
    ensures var sents := SplitSentences(text);
      Window(sents, window, i, NormalizeWs) == Closed(Slice(sents, i, i + window))
  {
    SplitSentencesProperties(text);
    WindowOfNormalized(SplitSentences(text), window, i);
  }

  /** A window of normalized sentences is left alone by `normalize_ws`. */
  lemma WindowOfNormalized(sents: seq<string>, window: int, i: int)
    requires forall k :: 0 <= k < |sents| ==> IsNormalized(sents[k])
    ensures Window(sents, window, i, NormalizeWs) == Closed(Slice(sents, i, i + window))
  {
    var ws := Slice(sents, i, i + window);
    SliceMembers(sents, i, i + window);
    ClosedNormalized(ws);
    NormalizeWsOfNormalized(Closed(ws));
  }

  lemma SliceMembers<T>(s: seq<T>, lo: int, hi: int)
    ensures forall k :: 0 <= k < |Slice(s, lo, hi)| ==> exists m :: 0 <= m < |s| && s[m] == Slice(s, lo, hi)[k]
  {
    var a, b := Bound(lo, |s|), Bound(hi, |s|);
    if a < b {
      assert Slice(s, lo, hi) == s[a..b];
      forall k | 0 <= k < |Slice(s, lo, hi)| ensures exists m :: 0 <= m < |s| && s[m] == Slice(s, lo, hi)[k] {
        assert s[a + k] == Slice(s, lo, hi)[k];
      }
    } else {
      assert Slice(s, lo, hi) == [];
    }
  }
}
