/**
 * Agent D's inputs to its prompt: short briefs of agent A's claims and of
 * agent C's events, and the company name it shows. The prompt text and the
 * model call that writes the verdict are outside the model.
 */
module AgentD {
  import opened Wrappers
  import opened PySeq
  import opened Evidence
  import opened Company

  /** The default number of claims and of events briefed. */
  const BriefLimit := 30

  /** The name shown when neither agent reports a company. */
  const DefaultCompany := "目標公司"

  /** A claim as briefed: four fields copied from the claim and the `meta_id`s of its excerpts. */
  datatype ClaimEntry = ClaimEntry(claimText: string, topic: string, targetYear: Option<int>, certainty: string, metaIds: seq<int>)

  /** `[ch.get("meta_id") for ch in chunks if ch.get("meta_id") is not None]`. */
  function MetaIds(chunks: seq<Excerpt>): seq<int> {
    if chunks == [] then []
    else
      var p, ch := chunks[..|chunks| - 1], chunks[|chunks| - 1];
      MetaIds(p) + (match ch.metaId case None => [] case Some(m) => [m])
  }

  /** The ids of a concatenation are the ids of the parts, in order. */
  lemma {:induction false} MetaIdsConcat(a: seq<Excerpt>, b: seq<Excerpt>)
    ensures MetaIds(a + b) == MetaIds(a) + MetaIds(b)
  {
    if b == [] {
      assert a + b == a;
    } else {
      var b' := b[..|b| - 1];
      assert (a + b)[..|a + b| - 1] == a + b';
      assert (a + b)[|a + b| - 1] == b[|b| - 1];
      MetaIdsConcat(a, b');
    }
  }

  /**
   * The ids are exactly the present `meta_id`s: an id is listed iff some
   * excerpt carries it, there are at most as many ids as excerpts, and
   * when every excerpt has one they are listed one per excerpt, in order.
   */
  lemma {:induction false} MetaIdsMeaning(chunks: seq<Excerpt>)
    ensures forall m :: m in MetaIds(chunks) <==> exists i :: 0 <= i < |chunks| && chunks[i].metaId == Some(m)
    ensures |MetaIds(chunks)| <= |chunks|
    ensures (forall i :: 0 <= i < |chunks| ==> chunks[i].metaId.Some?) ==>
      |MetaIds(chunks)| == |chunks| && forall i :: 0 <= i < |chunks| ==> MetaIds(chunks)[i] == chunks[i].metaId.value
  {
    MetaIdsMembers(chunks);
    MetaIdsLength(chunks);
    if forall i :: 0 <= i < |chunks| ==> chunks[i].metaId.Some? {
      MetaIdsAllPresent(chunks);
    }
  }

  lemma {:induction false} MetaIdsMembers(chunks: seq<Excerpt>)
    ensures forall m :: m in MetaIds(chunks) <==> exists i :: 0 <= i < |chunks| && chunks[i].metaId == Some(m)
  {
    if chunks != [] {
      var p, ch := chunks[..|chunks| - 1], chunks[|chunks| - 1];
      var last := match ch.metaId case None => [] case Some(m) => [m];
      assert MetaIds(chunks) == MetaIds(p) + last;
      MetaIdsMembers(p);
      forall m ensures m in MetaIds(chunks) <==> exists i :: 0 <= i < |chunks| && chunks[i].metaId == Some(m) {
        if m in MetaIds(p) {
          var i :| 0 <= i < |p| && p[i].metaId == Some(m);
          assert chunks[i] == p[i];
        }
        if exists i :: 0 <= i < |chunks| && chunks[i].metaId == Some(m) {
          var i :| 0 <= i < |chunks| && chunks[i].metaId == Some(m);
          if i < |p| {
            assert p[i] == chunks[i];
          }
        }
      }
    }
  }

  lemma {:induction false} MetaIdsLength(chunks: seq<Excerpt>)
    ensures |MetaIds(chunks)| <= |chunks|
  {
    if chunks != [] {
      MetaIdsLength(chunks[..|chunks| - 1]);
    }
  }

  lemma {:induction false} MetaIdsAllPresent(chunks: seq<Excerpt>)
    requires forall i :: 0 <= i < |chunks| ==> chunks[i].metaId.Some?
    ensures |MetaIds(chunks)| == |chunks|
    ensures forall i :: 0 <= i < |chunks| ==> MetaIds(chunks)[i] == chunks[i].metaId.value
  {
    if chunks != [] {
      var p, ch := chunks[..|chunks| - 1], chunks[|chunks| - 1];
      assert forall i :: 0 <= i < |p| ==> p[i] == chunks[i];
      MetaIdsAllPresent(p);
      assert MetaIds(chunks) == MetaIds(p) + [ch.metaId.value];
    }
  }

  /** The brief entry of one claim. */
  function ClaimEntryOf(c: Claim): ClaimEntry {
    ClaimEntry(c.claimText, c.topic, c.targetYear, c.certainty, MetaIds(c.chunks))
  }

  /** `build_claim_brief`: a missing or empty `claims` is an empty list; the first `limit` claims are briefed. */
  function ClaimBrief(claims: Option<seq<Claim>>, limit: int): seq<ClaimEntry> {
    var cs := Take(claims.GetOr([]), limit);
    seq(|cs|, i requires 0 <= i < |cs| => ClaimEntryOf(cs[i]))
  }

  /** `build_claim_brief`, appending one entry per claim. */
  method BuildClaimBrief(claims: Option<seq<Claim>>, limit: int) returns (out: seq<ClaimEntry>)
    ensures out == ClaimBrief(claims, limit)
  {
    var cs := Take(claims.GetOr([]), limit);
    out := [];
    for i := 0 to |cs|
      invariant |out| == i && forall j :: 0 <= j < i ==> out[j] == ClaimEntryOf(cs[j])
    {
      out := out + [ClaimEntryOf(cs[i])];
    }
  }

  /**
   * No claims give no entries; otherwise at most `min(limit, n)` entries
   * and, for a non-negative limit, exactly that many; entry `i` copies the
   * text, topic, target year and certainty of claim `i` and lists the
   * `meta_id`s its excerpts carry.
   */
  lemma ClaimBriefProperties(claims: Option<seq<Claim>>, limit: int)
    ensures var r, cs := ClaimBrief(claims, limit), claims.GetOr([]);
      && (claims.None? ==> r == [])
      && |r| <= |cs|
      && (0 <= limit ==> |r| == Min(limit, |cs|))
      && forall i :: 0 <= i < |r| ==>
           && r[i].claimText == cs[i].claimText && r[i].topic == cs[i].topic
           && r[i].targetYear == cs[i].targetYear && r[i].certainty == cs[i].certainty
           && (forall m :: m in r[i].metaIds <==> exists k :: 0 <= k < |cs[i].chunks| && cs[i].chunks[k].metaId == Some(m))
  {
    var cs := claims.GetOr([]);
    var t := Take(cs, limit);
    forall i | 0 <= i < |t| ensures t[i] == cs[i] {
    }
    forall i | 0 <= i < |t| {
      MetaIdsMeaning(t[i].chunks);
    }
  }

  /** An event as briefed: the values it has under five keys (`None` for a key it lacks). */
  datatype NewsEntry<V> = NewsEntry(title: Option<V>, published: Option<V>, summary: Option<V>, link: Option<V>, relevanceScore: Option<V>)

  /** Python's `e.get(k)`. */
  function Get<V>(e: map<string, V>, k: string): Option<V> {
    if k in e then Some(e[k]) else None
  }

  /** The brief entry of one event object. */
  function NewsEntryOf<V>(e: map<string, V>): NewsEntry<V> {
    NewsEntry(Get(e, "title"), Get(e, "published"), Get(e, "summary"), Get(e, "link"), Get(e, "relevance_score"))
  }

  /** `build_news_brief`: a missing or empty `events` is an empty list; the first `limit` events are briefed. */
  function NewsBrief<V>(events: Option<seq<map<string, V>>>, limit: int): seq<NewsEntry<V>> {
    var es := Take(events.GetOr([]), limit);
    seq(|es|, i requires 0 <= i < |es| => NewsEntryOf(es[i]))
  }

  /** `build_news_brief`, appending one entry per event. */
  method BuildNewsBrief<V>(events: Option<seq<map<string, V>>>, limit: int) returns (out: seq<NewsEntry<V>>)
    ensures out == NewsBrief(events, limit)
  {
    var es := Take(events.GetOr([]), limit);
    out := [];
    for i := 0 to |es|
      invariant |out| == i && forall j :: 0 <= j < i ==> out[j] == NewsEntryOf(es[j])
    {
      out := out + [NewsEntryOf(es[i])];
    }
  }

  /**
   * At most `min(limit, n)` entries (exactly that many for a non-negative
   * limit); entry `i` holds exactly what event `i` has under `title`, `published`,
   * `summary`, `link` and `relevance_score`.
   */
  lemma NewsBriefProperties<V>(events: Option<seq<map<string, V>>>, limit: int)
    ensures var r, es := NewsBrief(events, limit), events.GetOr([]);
      && (events.None? ==> r == [])
      && |r| <= |es|
      && (0 <= limit ==> |r| == Min(limit, |es|))
      && forall i :: 0 <= i < |r| ==>
           && (r[i].title.Some? <==> "title" in es[i]) && (r[i].title.Some? ==> r[i].title.value == es[i]["title"])
           && (r[i].link.Some? <==> "link" in es[i]) && (r[i].link.Some? ==> r[i].link.value == es[i]["link"])
           && (r[i].published.Some? <==> "published" in es[i]) && (r[i].published.Some? ==> r[i].published.value == es[i]["published"])
           && (r[i].summary.Some? <==> "summary" in es[i]) && (r[i].summary.Some? ==> r[i].summary.value == es[i]["summary"])
           && (r[i].relevanceScore.Some? <==> "relevance_score" in es[i])
           && (r[i].relevanceScore.Some? ==> r[i].relevanceScore.value == es[i]["relevance_score"])
  {
    var es := events.GetOr([]);
    var t := Take(es, limit);
    forall i | 0 <= i < |t| ensures t[i] == es[i] {
    }
  }

  /** The keys of an event written in the shape agent C's prompt asks for. */
  const PromptEventKeys: set<string> :=
    {"event_id", "company", "event_title", "event_text", "event_date", "topic", "severity", "source_citations", "evidence", "sources"}

  /** An event of the prompted shape has none of the five keys, so its brief entry is empty. */
  lemma NewsEntryOfPromptShapedEvent<V>(e: map<string, V>)
    requires forall k :: k in e ==> k in PromptEventKeys
    ensures NewsEntryOf(e) == NewsEntry(None, None, None, None, None)
  {
    assert "title" !in PromptEventKeys && "published" !in PromptEventKeys && "summary" !in PromptEventKeys;
    assert "link" !in PromptEventKeys && "relevance_score" !in PromptEventKeys;
  }

  /** The company in agent D's prompt: agent A's if truthy, else agent C's if truthy, else the default. */
  function ShownCompany(fromA: Option<string>, fromC: Option<string>): string {
    if Truthy(fromA) then fromA.value
    else if Truthy(fromC) then fromC.value
    else DefaultCompany
  }

  /** The name shown is never empty and is the first truthy one among agent A's, agent C's and the default. */
  lemma ShownCompanyMeaning(fromA: Option<string>, fromC: Option<string>)
    ensures var r := ShownCompany(fromA, fromC);
      && r != ""
      && (Truthy(fromA) ==> r == fromA.value)
      && (!Truthy(fromA) && Truthy(fromC) ==> r == fromC.value)
      && (!Truthy(fromA) && !Truthy(fromC) ==> r == DefaultCompany)
  {
  }
}
