/**
 * Agent A's citation plumbing: `build_context` numbers every passage by its
 * `meta_id` and keeps a map from that number back to the passage, and
 * `enrich_claims_with_source_chunks` turns the numbers a model cites into
 * excerpt records.
 */
module Citations {
  import opened Wrappers
  import opened PySeq
  import opened Text
  import opened Numbers
  import opened Evidence

  /** One line of the context: `[mid] 公司:… | 年度:… | 頁碼:… | 內容:…`. */
  function ContextLine(p: Passage): string {
    "[" + NatToString(p.metaId) + "] 公司:" + p.company + " | 年度:" + p.year
      + " | 頁碼:" + p.page + " | 內容:" + p.chunk
  }

  /** A context line opens with the passage's number in brackets, and that number reads back as its `meta_id`. */
  lemma ContextLineCitesItsPassage(p: Passage)
    ensures var line, tag := ContextLine(p), NatToString(p.metaId);
      && 2 + |tag| <= |line|
      && line[0] == '[' && line[1..1 + |tag|] == tag && line[1 + |tag|] == ']'
      && ParseInt(tag) == Some(p.metaId as int)
  {
    var tag := NatToString(p.metaId);
    var rest := "] 公司:" + p.company + " | 年度:" + p.year + " | 頁碼:" + p.page + " | 內容:" + p.chunk;
    assert ContextLine(p) == "[" + tag + rest;
    assert IntToString(p.metaId) == tag;
    ParseIntOfIntToString(p.metaId);
  }

  /** The lines of the context, one per passage, in order. */
  function ContextLines(ps: seq<Passage>): (ls: seq<string>)
    ensures |ls| == |ps| && forall i :: 0 <= i < |ps| ==> ls[i] == ContextLine(ps[i])
  {
    seq(|ps|, i requires 0 <= i < |ps| => ContextLine(ps[i]))
  }

  /** `cite_map`: each `meta_id` mapped to the last passage that carries it. */
  function CiteMap(ps: seq<Passage>): map<int, Passage> {
    if ps == [] then map[]
    else
      var p := ps[|ps| - 1];
      CiteMap(ps[..|ps| - 1])[p.metaId as int := p]
  }

  /** A number is in the map exactly when some passage carries it, and it maps to the last such passage. */
  lemma {:induction false} CiteMapMeaning(ps: seq<Passage>, mid: int)
    ensures mid in CiteMap(ps) <==> exists i :: 0 <= i < |ps| && ps[i].metaId == mid
    ensures forall i :: 0 <= i < |ps| && ps[i].metaId == mid && (forall j :: i < j < |ps| ==> ps[j].metaId != mid) ==>
              mid in CiteMap(ps) && CiteMap(ps)[mid] == ps[i]
  {
    if ps != [] {
      var q := ps[..|ps| - 1];
      CiteMapMeaning(q, mid);
      assert forall i :: 0 <= i < |q| ==> q[i] == ps[i];
    }
  }

  /** Every entry of the map is one of the passages, filed under its own number. */
  lemma {:induction false} CiteMapValues(ps: seq<Passage>, mid: int)
    requires mid in CiteMap(ps)
    ensures CiteMap(ps)[mid] in ps && CiteMap(ps)[mid].metaId as int == mid
  {
    var q, p := ps[..|ps| - 1], ps[|ps| - 1];
    assert ps == q + [p];
    if p.metaId as int != mid {
      CiteMapValues(q, mid);
    }
  }

  /** With distinct `meta_id`s, each passage is found under its own number. */
  lemma CiteMapOfDistinct(ps: seq<Passage>, i: nat)
    requires forall a, b :: 0 <= a < b < |ps| ==> ps[a].metaId != ps[b].metaId
    requires i < |ps|
    ensures ps[i].metaId as int in CiteMap(ps) && CiteMap(ps)[ps[i].metaId as int] == ps[i]
  {
    CiteMapMeaning(ps, ps[i].metaId);
  }

  /** `build_context`: the lines joined by newlines, and the citation map. */
  method BuildContext(passages: seq<Passage>) returns (context: string, citeMap: map<int, Passage>)
    ensures context == Join(ContextLines(passages), "\n")
    ensures citeMap == CiteMap(passages)
  {
    var lines: seq<string> := [];
    citeMap := map[];
    for i := 0 to |passages|
      invariant lines == ContextLines(passages[..i])
      invariant citeMap == CiteMap(passages[..i])
    {
      var p := passages[i];
      var mid := p.metaId as int;
      lines := lines + [ContextLine(p)];
      citeMap := citeMap[mid := p];
      assert passages[..i + 1][..i] == passages[..i];
    }
    assert passages[..|passages|] == passages;
    context := Join(lines, "\n");
  }

  /** The `source_chunks` entry for the passage found under `mid`. */
  function ExcerptOf(mid: int, p: Passage, maxLen: int): Excerpt {
    Excerpt(Some(mid), p.company, p.year, p.page, p.score, Truncate(p.chunk, maxLen))
  }

  /** What one citation contributes: its excerpt if it reads as an integer found in the map, otherwise nothing. */
  function Resolve(c: Cite, citeMap: map<int, Passage>, maxLen: int): (r: seq<Excerpt>)
    ensures |r| <= 1
    ensures r != [] <==> CiteToInt(c).Some? && CiteToInt(c).value in citeMap
  {
    match CiteToInt(c)
    case None => []
    case Some(mid) => if mid in citeMap then [ExcerptOf(mid, citeMap[mid], maxLen)] else []
  }

  /** The `source_chunks` built from a list of citations, in citation order. */
  function SourceChunks(cites: seq<Cite>, citeMap: map<int, Passage>, maxLen: int): (r: seq<Excerpt>)
    ensures |r| <= |cites|
  {
    if cites == [] then []
    else SourceChunks(cites[..|cites| - 1], citeMap, maxLen) + Resolve(cites[|cites| - 1], citeMap, maxLen)
  }

  /** Building the excerpts is a homomorphism from citation lists to excerpt lists. */
  lemma {:induction false} SourceChunksConcat(a: seq<Cite>, b: seq<Cite>, citeMap: map<int, Passage>, maxLen: int)
    ensures SourceChunks(a + b, citeMap, maxLen) == SourceChunks(a, citeMap, maxLen) + SourceChunks(b, citeMap, maxLen)
    decreases |b|
  {
    if b == [] {
      assert a + b == a;
    } else {
      var b', c := b[..|b| - 1], b[|b| - 1];
      var x := Resolve(c, citeMap, maxLen);
      assert (a + b)[..|a + b| - 1] == a + b' && (a + b)[|a + b| - 1] == c;
      assert SourceChunks(a + b, citeMap, maxLen) == SourceChunks(a + b', citeMap, maxLen) + x;
      assert SourceChunks(b, citeMap, maxLen) == SourceChunks(b', citeMap, maxLen) + x;
      SourceChunksConcat(a, b', citeMap, maxLen);
      SnocConcat(SourceChunks(a, citeMap, maxLen), SourceChunks(b', citeMap, maxLen), x,
                 SourceChunks(a + b', citeMap, maxLen));
    }
  }

  lemma SnocConcat<T>(xs: seq<T>, ys: seq<T>, z: seq<T>, xys: seq<T>)
    requires xys == xs + ys
    ensures xys + z == xs + (ys + z)
  {
  }

  /**
   * Every excerpt comes from a cited number found in the map: it carries
   * that number, the passage's company, year, page and score, and its text
   * truncated to `maxLen`.
   */
  lemma {:induction false} SourceChunksFromCitations(cites: seq<Cite>, citeMap: map<int, Passage>, maxLen: int)
    ensures var r := SourceChunks(cites, citeMap, maxLen);
      forall e :: e in r ==>
        && e.metaId.Some? && e.metaId.value in citeMap
        && e == ExcerptOf(e.metaId.value, citeMap[e.metaId.value], maxLen)
        && exists k :: 0 <= k < |cites| && CiteToInt(cites[k]) == e.metaId
  {
    if cites != [] {
      var q := cites[..|cites| - 1];
      SourceChunksFromCitations(q, citeMap, maxLen);
      assert forall k :: 0 <= k < |q| ==> q[k] == cites[k];
    }
  }

  /** The excerpt a citation resolves to, when its number is in the map. */
  function CitedExcerpt(c: Cite, citeMap: map<int, Passage>, maxLen: int): Excerpt
    requires CiteToInt(c).Some? && CiteToInt(c).value in citeMap
  {
    ExcerptOf(CiteToInt(c).value, citeMap[CiteToInt(c).value], maxLen)
  }

  /** When every citation resolves, there is one excerpt per citation, in the same order. */
  lemma {:induction false} SourceChunksAllResolve(cites: seq<Cite>, citeMap: map<int, Passage>, maxLen: int)
    requires forall k :: 0 <= k < |cites| ==> CiteToInt(cites[k]).Some? && CiteToInt(cites[k]).value in citeMap
    ensures var r := SourceChunks(cites, citeMap, maxLen);
      && |r| == |cites|
      && forall k :: 0 <= k < |cites| ==> r[k] == CitedExcerpt(cites[k], citeMap, maxLen)
  {
    if cites != [] {
      var q, c := cites[..|cites| - 1], cites[|cites| - 1];
      SourceChunksAllResolve(q, citeMap, maxLen);
      var head := SourceChunks(q, citeMap, maxLen);
      var e := CitedExcerpt(c, citeMap, maxLen);
      assert Resolve(c, citeMap, maxLen) == [e];
      var f := (x: Cite) requires CiteToInt(x).Some? && CiteToInt(x).value in citeMap => CitedExcerpt(x, citeMap, maxLen);
      assert forall k :: 0 <= k < |head| ==> head[k] == f(cites[k]) by {
        assert forall k :: 0 <= k < |q| ==> q[k] == cites[k];
      }
      SnocMapped(cites, head, e, f);
    }
  }

  /** A citation that does not read as an integer, or whose number is not in the map, is dropped silently. */
  lemma SourceChunksSkips(cites: seq<Cite>, c: Cite, citeMap: map<int, Passage>, maxLen: int)
    requires CiteToInt(c).None? || CiteToInt(c).value !in citeMap
    ensures SourceChunks(cites + [c], citeMap, maxLen) == SourceChunks(cites, citeMap, maxLen)
  {
    assert (cites + [c])[..|cites|] == cites;
  }

  /**
   * The round trip the citation scheme relies on: a model that copies a
   * context line's number, either as a JSON number or as text, gets back an
   * excerpt of exactly that passage.
   */
  lemma CopiedCitationResolves(ps: seq<Passage>, i: nat, maxLen: int)
    requires forall a, b :: 0 <= a < b < |ps| ==> ps[a].metaId != ps[b].metaId
    requires i < |ps|
    ensures var mid := ps[i].metaId as int;
      && SourceChunks([CiteText(NatToString(ps[i].metaId))], CiteMap(ps), maxLen) == [ExcerptOf(mid, ps[i], maxLen)]
      && SourceChunks([CiteInt(mid)], CiteMap(ps), maxLen) == [ExcerptOf(mid, ps[i], maxLen)]
  {
    var mid := ps[i].metaId as int;
    CiteMapOfDistinct(ps, i);
    ParseIntOfIntToString(ps[i].metaId);
    assert IntToString(ps[i].metaId) == NatToString(ps[i].metaId);
    ResolveSingle(CiteText(NatToString(ps[i].metaId)), CiteMap(ps), maxLen, mid);
    ResolveSingle(CiteInt(mid), CiteMap(ps), maxLen, mid);
  }

  /** A lone citation whose number is in the map yields exactly that entry's excerpt. */
  lemma ResolveSingle(c: Cite, citeMap: map<int, Passage>, maxLen: int, mid: int)
    requires CiteToInt(c) == Some(mid) && mid in citeMap
    ensures SourceChunks([c], citeMap, maxLen) == [ExcerptOf(mid, citeMap[mid], maxLen)]
  {
    assert [c][..0] == [];
  }

  /** The inner loop of `enrich_claims_with_source_chunks` for one claim. */
  method ResolveCitations(cites: seq<Cite>, citeMap: map<int, Passage>, maxLen: int) returns (sourceChunks: seq<Excerpt>)
    ensures sourceChunks == SourceChunks(cites, citeMap, maxLen)
  {
    sourceChunks := [];
    for k := 0 to |cites|
      invariant sourceChunks == SourceChunks(cites[..k], citeMap, maxLen)
    {
      assert cites[..k + 1][..k] == cites[..k];
      var n := cites[k];
      var mid := CiteToInt(n);
      if mid.None? {
        continue;
      }
      if mid.value !in citeMap {
        continue;
      }
      var p := citeMap[mid.value];
      sourceChunks := sourceChunks + [ExcerptOf(mid.value, p, maxLen)];
    }
    assert cites[..|cites|] == cites;
  }

  /** A claim with its `source_chunks` rebuilt from its citations. */
  function Enriched(c: Claim, citeMap: map<int, Passage>, maxLen: int): Claim {
    c.(chunks := SourceChunks(c.citations, citeMap, maxLen))
  }

  /** `enrich_claims_with_source_chunks`: every claim, in place, gets the excerpts of its resolvable citations; nothing else changes. */
  method EnrichClaims(claims: array<Claim>, citeMap: map<int, Passage>, maxLen: int)
    modifies claims
    ensures forall i :: 0 <= i < claims.Length ==> claims[i] == Enriched(old(claims[i]), citeMap, maxLen)
  {
    for i := 0 to claims.Length
      invariant forall j :: 0 <= j < i ==> claims[j] == Enriched(old(claims[j]), citeMap, maxLen)
      invariant forall j :: i <= j < claims.Length ==> claims[j] == old(claims[j])
    {
      var c := claims[i];
      var sourceChunks := ResolveCitations(c.citations, citeMap, maxLen);
      claims[i] := c.(chunks := sourceChunks);
    }
  }

  /** Every excerpt attached by enrichment is the excerpt of one of the passages of the context, under its own number. */
  lemma EnrichedExcerptsFrom(c: Claim, ps: seq<Passage>, maxLen: int)
    ensures forall e :: e in Enriched(c, CiteMap(ps), maxLen).chunks ==>
              exists p :: p in ps && e == ExcerptOf(p.metaId as int, p, maxLen)
  {
    SourceChunksFromCitations(c.citations, CiteMap(ps), maxLen);
    forall e | e in Enriched(c, CiteMap(ps), maxLen).chunks
      ensures exists p :: p in ps && e == ExcerptOf(p.metaId as int, p, maxLen)
    {
      CiteMapValues(ps, e.metaId.value);
      var p := CiteMap(ps)[e.metaId.value];
      assert p in ps && e == ExcerptOf(p.metaId as int, p, maxLen);
    }
  }
}
