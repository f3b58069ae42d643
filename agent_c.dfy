/**
 * Agent C, the negative-news collector: the fixed search queries, the
 * de-duplication of feed entries, the reranking by similarity, the tolerant
 * parse of the model's JSON object with its fallback, and the attachment of
 * the cited news items to each event.
 *
 * The feed, the sentence embedder, the date parser, the model and
 * `json.loads` are outside the model: reranking takes the similarity of a
 * text to the query and the date guess as functions, and parsing takes the
 * decoder as a function.
 */
module AgentC {
  import opened Wrappers
  import opened PySeq
  import opened Text
  import opened Numbers
  import opened JsonSpan
  import opened StableSort
  import opened Evidence

  const TopkFeedsPerQuery := 50
  const EmbFilterTopK := 12

  /** The topics searched for, each appended to the company name. */
  const QueryTopics: seq<string> := ["永續 罰款", "污染", "環保 裁罰", "漏油", "火災 爆炸", "碳排 放空"]

  /** `build_queries`: the stripped company name, a space and each topic in turn. */
  function BuildQueries(company: string): seq<string> {
    seq(|QueryTopics|, i requires 0 <= i < |QueryTopics| => Strip(company) + " " + QueryTopics[i])
  }

  lemma ConcatSlices(p: string, t: string)
    ensures (p + t)[..|p|] == p && (p + t)[|p|..] == t
  {
  }

  /** Different endings after a common prefix give different strings. */
  lemma PrefixDistinct(p: string, a: string, b: string)
    requires a != b
    ensures p + a != p + b
  {
    assert a == (p + a)[|p|..];
    assert b == (p + b)[|p|..];
  }

  /** There are six topics, none empty, and no two begin with the same character. */
  lemma QueryTopicsDistinct()
    ensures |QueryTopics| == 6
    ensures forall i :: 0 <= i < |QueryTopics| ==> |QueryTopics[i]| > 0
    ensures forall i, j :: 0 <= i < j < |QueryTopics| ==> QueryTopics[i] != QueryTopics[j]
  {
    var firsts := seq(|QueryTopics|, i requires 0 <= i < |QueryTopics| => QueryTopics[i][0]);
    assert firsts == "永污環漏火碳";
  }

  /** Six queries, one per topic in order, each the stripped company name, a space and the topic. */
  lemma BuildQueriesMeaning(company: string)
    ensures var qs, base := BuildQueries(company), Strip(company);
      && |qs| == 6
      && forall i :: 0 <= i < |qs| ==>
           |qs[i]| > |base| + 1 && qs[i][..|base| + 1] == base + " " && qs[i][|base| + 1..] == QueryTopics[i]
  {
    QueriesShape(Strip(company), BuildQueries(company));
  }

  lemma QueriesShape(base: string, qs: seq<string>)
    requires |qs| == |QueryTopics| && forall i :: 0 <= i < |qs| ==> qs[i] == base + " " + QueryTopics[i]
    ensures |qs| == 6
    ensures forall i :: 0 <= i < |qs| ==>
      |qs[i]| > |base| + 1 && qs[i][..|base| + 1] == base + " " && qs[i][|base| + 1..] == QueryTopics[i]
  {
    QueryTopicsDistinct();
    forall i | 0 <= i < |qs|
      ensures |qs[i]| > |base| + 1 && qs[i][..|base| + 1] == base + " " && qs[i][|base| + 1..] == QueryTopics[i]
    {
      ConcatSlices(base + " ", QueryTopics[i]);
    }
  }

  /** No two queries are the same. */
  lemma BuildQueriesDistinct(company: string)
    ensures NoDuplicates(BuildQueries(company))
  {
    var qs, base := BuildQueries(company), Strip(company);
    QueryTopicsDistinct();
    forall i, j | 0 <= i < j < |qs| ensures qs[i] != qs[j] {
      assert qs[i] == (base + " ") + QueryTopics[i] && qs[j] == (base + " ") + QueryTopics[j];
      PrefixDistinct(base + " ", QueryTopics[i], QueryTopics[j]);
    }
  }

  /**
   * A feed entry. Entries built from the feed carry their address as `link`
   * and have no `url` key (`None`); reranking adds `relevanceScore` and
   * `eventDateGuess`.
   */
  datatype NewsItem = NewsItem(
    title: string,
    url: Option<string>,
    link: string,
    published: string,
    summary: string,
    relevanceScore: Option<real>,
    eventDateGuess: Option<string>)

  /** The key `dedup_news` compares: `(title, url)`, a missing `url` reading as empty. */
  function NewsKey(it: NewsItem): (string, string) {
    (it.title, it.url.GetOr(""))
  }

  /** The keys of the items, in order. */
  function KeysOf<K>(items: seq<NewsItem>, key: NewsItem -> K): (ks: seq<K>)
    ensures |ks| == |items| && forall i :: 0 <= i < |items| ==> ks[i] == key(items[i])
  {
    seq(|items|, i requires 0 <= i < |items| => key(items[i]))
  }

  /** The items, each dropped when an earlier one has the same key. */
  function DedupBy<K(==)>(items: seq<NewsItem>, key: NewsItem -> K): seq<NewsItem> {
    if items == [] then []
    else
      var p, it := items[..|items| - 1], items[|items| - 1];
      if key(it) in KeysOf(p, key) then DedupBy(p, key) else DedupBy(p, key) + [it]
  }

  lemma KeysOfAppend<K>(items: seq<NewsItem>, it: NewsItem, key: NewsItem -> K)
    ensures KeysOf(items + [it], key) == KeysOf(items, key) + [key(it)]
  {
  }

  lemma DedupBySnoc<K>(items: seq<NewsItem>, it: NewsItem, key: NewsItem -> K)
    ensures DedupBy(items + [it], key) ==
      if key(it) in KeysOf(items, key) then DedupBy(items, key) else DedupBy(items, key) + [it]
  {
    assert (items + [it])[..|items|] == items;
  }

  /** `dedup_news`, with `seen` a set of keys; the source compares `NewsKey`. */
  method DedupNews<K(==)>(items: seq<NewsItem>, key: NewsItem -> K) returns (out: seq<NewsItem>)
    ensures out == DedupBy(items, key)
  {
    var seen: set<K> := {};
    out := [];
    for i := 0 to |items|
      invariant out == DedupBy(items[..i], key)
      invariant seen == set x | x in KeysOf(items[..i], key)
    {
      var it := items[i];
      assert items[..i + 1] == items[..i] + [it];
      KeysOfAppend(items[..i], it, key);
      DedupBySnoc(items[..i], it, key);
      var k := key(it);
      if k in seen {
        continue;
      }
      seen := seen + {k};
      out := out + [it];
    }
    assert items[..|items|] == items;
  }

  /** The keys kept are the distinct keys of the input, in the order of their first occurrence. */
  lemma {:induction false} DedupByKeys<K>(items: seq<NewsItem>, key: NewsItem -> K)
    ensures KeysOf(DedupBy(items, key), key) == Distinct(KeysOf(items, key))
  {
    if items != [] {
      var p, it := items[..|items| - 1], items[|items| - 1];
      DedupByKeys(p, key);
      assert items == p + [it];
      KeysOfAppend(p, it, key);
      DistinctAppend(KeysOf(p, key), key(it));
      if key(it) !in KeysOf(p, key) {
        KeysOfAppend(DedupBy(p, key), it, key);
      }
    }
  }

  /** The result is the input with some items left out, in their original order. */
  lemma {:induction false} DedupBySubsequence<K>(items: seq<NewsItem>, key: NewsItem -> K)
    ensures Subsequence(DedupBy(items, key), items)
  {
    if items != [] {
      var p, it := items[..|items| - 1], items[|items| - 1];
      DedupBySubsequence(p, key);
      var d := DedupBy(items, key);
      if key(it) !in KeysOf(p, key) {
        assert d[..|d| - 1] == DedupBy(p, key);
      }
    }
  }

  /** Each kept item is the first item of the input with its key. */
  lemma {:induction false} DedupByFirst<K>(items: seq<NewsItem>, key: NewsItem -> K)
    ensures forall j :: 0 <= j < |DedupBy(items, key)| ==>
      key(DedupBy(items, key)[j]) in KeysOf(items, key)
      && DedupBy(items, key)[j] == items[IndexOf(KeysOf(items, key), key(DedupBy(items, key)[j]))]
  {
    if items != [] {
      var p, it := items[..|items| - 1], items[|items| - 1];
      DedupByFirst(p, key);
      var d, dp, ks, kp := DedupBy(items, key), DedupBy(p, key), KeysOf(items, key), KeysOf(p, key);
      assert items == p + [it];
      KeysOfAppend(p, it, key);
      forall j | 0 <= j < |d| ensures key(d[j]) in ks && d[j] == items[IndexOf(ks, key(d[j]))] {
        if j < |dp| {
          assert d[j] == dp[j];
          assert key(dp[j]) in kp && dp[j] == p[IndexOf(kp, key(dp[j]))];
          IndexOfAppend(kp, key(it), key(d[j]));
          assert ks == kp + [key(it)];
        } else {
          assert d[j] == it && key(it) !in kp;
          assert ks[|p|] == key(it);
        }
      }
    }
  }

  /**
   * `dedup_news`: a subsequence of its input in which no two items share a
   * key, every key of the input still appears, and each key is represented
   * by the first item that had it.
   */
  lemma DedupNewsMeaning<K>(items: seq<NewsItem>, key: NewsItem -> K)
    ensures var d := DedupBy(items, key);
      && Subsequence(d, items)
      && NoDuplicates(KeysOf(d, key))
      && (forall it :: it in items ==> key(it) in KeysOf(d, key))
      && (forall j :: 0 <= j < |d| ==> key(d[j]) in KeysOf(items, key) && d[j] == items[IndexOf(KeysOf(items, key), key(d[j]))])
  {
    DedupByKeys(items, key);
    DedupBySubsequence(items, key);
    DedupByFirst(items, key);
    forall it | it in items ensures key(it) in KeysOf(DedupBy(items, key), key) {
      DistinctMembership(KeysOf(items, key), key(it));
    }
  }

  /** Feed entries never carry `url`, so two different articles with the same title are merged into the first. */
  lemma DedupNewsMergesSameTitle(a: NewsItem, b: NewsItem)
    requires a.title == b.title && a.url.None? && b.url.None? && a.link != b.link
    ensures DedupBy([a, b], NewsKey) == [a]
  {
    assert [a, b][..1] == [a];
    assert [a][..0] == [];
    assert DedupBy([a], NewsKey) == [a];
    assert KeysOf([a], NewsKey) == [NewsKey(a)];
    assert NewsKey(b) == NewsKey(a);
  }

  /** The key the de-duplication evidently means: the title and the article's address. */
  function LinkKey(it: NewsItem): (string, string) {
    (it.title, it.link)
  }

  /** Keyed by the address, every distinct article of the input survives, and the two articles above are both kept. */
  lemma DedupNewsByLinkKeepsArticles(items: seq<NewsItem>, a: NewsItem, b: NewsItem)
    ensures forall it :: it in items ==>
      exists o :: o in DedupBy(items, LinkKey) && o.title == it.title && o.link == it.link
    ensures a.link != b.link ==> DedupBy([a, b], LinkKey) == [a, b]
  {
    DedupByCovers(items, LinkKey);
    forall it | it in items ensures exists o :: o in DedupBy(items, LinkKey) && o.title == it.title && o.link == it.link {
      var o :| o in DedupBy(items, LinkKey) && LinkKey(o) == LinkKey(it);
    }
    if a.link != b.link {
      DedupTwoDistinct(a, b, LinkKey);
    }
  }

  /** Every key of the input is the key of some kept item. */
  lemma DedupByCovers<K>(items: seq<NewsItem>, key: NewsItem -> K)
    ensures forall it :: it in items ==> exists o :: o in DedupBy(items, key) && key(o) == key(it)
  {
    var d := DedupBy(items, key);
    DedupNewsMeaning(items, key);
    forall it | it in items ensures exists o :: o in d && key(o) == key(it) {
      var ks := KeysOf(d, key);
      var j :| 0 <= j < |ks| && ks[j] == key(it);
      assert d[j] in d;
    }
  }

  /** Two items with different keys are both kept. */
  lemma DedupTwoDistinct<K>(a: NewsItem, b: NewsItem, key: NewsItem -> K)
    requires key(a) != key(b)
    ensures DedupBy([a, b], key) == [a, b]
  {
    assert [a, b][..1] == [a];
    assert [a][..0] == [];
    assert DedupBy([a], key) == [a];
    assert KeysOf([a], key) == [key(a)];
  }


  /** The similarity of an item's text to the query, from the sentence embedder. */
  type Similarity = (string, string) -> real

  /** `parse_date_safe`: the date as `YYYY-MM-DD`, or `None`. */
  type DateParser = string -> Option<string>

  /** The text embedded for an item. */
  function ItemText(it: NewsItem): string {
    it.title + " " + it.summary
  }

  /** The query the items are compared with. */
  function RerankQuery(company: string): string {
    company + " 環境 永續 負面事件 裁罰 污染"
  }

  function PairScore(p: (NewsItem, real)): real { p.1 }

  /** Each item paired with its similarity to the query. */
  function Scored(company: string, items: seq<NewsItem>, sim: Similarity): (ps: seq<(NewsItem, real)>)
    ensures |ps| == |items| && forall i :: 0 <= i < |items| ==> ps[i] == (items[i], sim(RerankQuery(company), ItemText(items[i])))
  {
    seq(|items|, i requires 0 <= i < |items| => (items[i], sim(RerankQuery(company), ItemText(items[i]))))
  }

  /** An item copied with its score and its date guess (`or None` turns an empty date into `None`). */
  function Annotated(p: (NewsItem, real), parseDate: DateParser): NewsItem {
    var d := parseDate(p.0.published);
    p.0.(relevanceScore := Some(p.1), eventDateGuess := if d == Some("") then None else d)
  }

  /** The `topk` best-scored pairs, ties in input order. */
  function TopScored(company: string, items: seq<NewsItem>, topk: int, sim: Similarity): seq<(NewsItem, real)> {
    Take(SortDesc(Scored(company, items, sim), PairScore), topk)
  }

  /** `emb_rerank`. */
  function Reranked(company: string, items: seq<NewsItem>, topk: int, sim: Similarity, parseDate: DateParser): seq<NewsItem> {
    if items == [] then []
    else
      var ranked := TopScored(company, items, topk, sim);
      seq(|ranked|, i requires 0 <= i < |ranked| => Annotated(ranked[i], parseDate))
  }

  /** `emb_rerank`, building the output in a loop. */
  method EmbRerank(company: string, items: seq<NewsItem>, topk: int, sim: Similarity, parseDate: DateParser)
    returns (out: seq<NewsItem>)
    ensures out == Reranked(company, items, topk, sim, parseDate)
  {
    if items == [] {
      return [];
    }
    var ranked := TopScored(company, items, topk, sim);
    out := [];
    for i := 0 to |ranked|
      invariant |out| == i && forall j :: 0 <= j < i ==> out[j] == Annotated(ranked[j], parseDate)
    {
      out := out + [Annotated(ranked[i], parseDate)];
    }
  }

  /** The pairs kept are sorted by score, at most `topk` of them, each an item with its score, the first the best. */
  lemma TopScoredProperties(company: string, items: seq<NewsItem>, topk: int, sim: Similarity)
    ensures var t, scored := TopScored(company, items, topk, sim), Scored(company, items, sim);
      && SortedDesc(t, PairScore)
      && (0 <= topk ==> |t| == Min(topk, |items|))
      && (forall i :: 0 <= i < |t| ==> t[i] in scored)
      && (t != [] ==> forall k :: 0 <= k < |items| ==> scored[k].1 <= t[0].1)
  {
    var scored := Scored(company, items, sim);
    var sorted := SortDesc(scored, PairScore);
    var t := TopScored(company, items, topk, sim);
    SortDescLength(scored, PairScore);
    TopPairs(scored, sorted, t);
  }

  /** A prefix of the pairs sorted by score. */
  lemma TopPairs(scored: seq<(NewsItem, real)>, sorted: seq<(NewsItem, real)>, t: seq<(NewsItem, real)>)
    requires SortedDesc(sorted, PairScore) && multiset(sorted) == multiset(scored)
    requires |t| <= |sorted| && t == sorted[..|t|]
    ensures SortedDesc(t, PairScore)
    ensures forall i :: 0 <= i < |t| ==> t[i] in scored
    ensures t != [] ==> forall k :: 0 <= k < |scored| ==> scored[k].1 <= t[0].1
  {
    TopOfSorted(scored, sorted, t, PairScore);
    if t != [] {
      forall k | 0 <= k < |scored| ensures scored[k].1 <= t[0].1 {
        assert PairScore(scored[k]) <= PairScore(t[0]);
      }
    }
  }




  /**
   * Nothing in, nothing out; otherwise the best `min(topk, n)` items, each
   * an input item carrying its own score, in non-increasing order of score,
   * the first scoring at least as high as every input item.
   */
  lemma RerankedProperties(company: string, items: seq<NewsItem>, topk: int, sim: Similarity, parseDate: DateParser)
    ensures var r := Reranked(company, items, topk, sim, parseDate);
      && (items == [] ==> r == [])
      && (0 <= topk ==> |r| == Min(topk, |items|))
      && (forall i :: 0 <= i < |r| ==> r[i].relevanceScore.Some?)
      && (forall i, j :: 0 <= i < j < |r| ==> r[i].relevanceScore.value >= r[j].relevanceScore.value)
      && (forall i :: 0 <= i < |r| ==>
            (exists k :: 0 <= k < |items| && r[i] == Annotated((items[k], sim(RerankQuery(company), ItemText(items[k]))), parseDate)))
      && (r != [] ==> forall k :: 0 <= k < |items| ==>
            sim(RerankQuery(company), ItemText(items[k])) <= r[0].relevanceScore.value)
  {
    if items != [] {
      var scored := Scored(company, items, sim);
      var t := TopScored(company, items, topk, sim);
      var r := Reranked(company, items, topk, sim, parseDate);
      TopScoredProperties(company, items, topk, sim);
      forall i | 0 <= i < |r|
        ensures exists k :: 0 <= k < |items| && r[i] == Annotated((items[k], sim(RerankQuery(company), ItemText(items[k]))), parseDate)
      {
        var k :| 0 <= k < |scored| && scored[k] == t[i];
        assert r[i] == Annotated(scored[k], parseDate);
      }
      forall i, j | 0 <= i < j < |r| ensures r[i].relevanceScore.value >= r[j].relevanceScore.value {
        assert r[i].relevanceScore.value == t[i].1 && r[j].relevanceScore.value == t[j].1;
      }
      if r != [] {
        assert r[0].relevanceScore.value == t[0].1;
      }
    }
  }

  /** A news item as an event's source record. */
  datatype Source = Source(title: string, url: Option<string>, published: string, summary: string, relevanceScore: Option<real>)

  /** One extracted event; fields the model leaves out read as defaults. */
  datatype Event = Event(
    eventId: string,
    company: string,
    title: string,
    text: string,
    date: Option<string>,
    topic: string,
    severity: string,
    snippet: string,
    citations: seq<Cite>,
    sources: seq<Source>)

  /** The decoded JSON object: its `selected_company` and its `events` (empty when the key is missing). */
  datatype EventsPayload = EventsPayload(selectedCompany: Option<string>, events: seq<Event>)

  /**
   * A value `json.loads` returns, as `enrich_event_sources` will treat it:
   * an object it can walk, read as its company and events, or a value it
   * raises on (a top-level array, string or number, `"events": null`, an
   * event that is not an object, `"source_citations": null`).
   */
  datatype Decoded = EventsObject(payload: EventsPayload) | NotEventsObject

  /** `json.loads` on agent C's reply: `None` when it raises or yields `null`. */
  type Decoder = string -> Option<Decoded>

  /** The parse of already stripped text: as it stands, or the span from its first `{` to a `}` that ends it. */
  function ParseStripped(t: string, decode: Decoder): Option<Decoded> {
    match decode(t)
    case Some(v) => Some(v)
    case None =>
      match BraceSpanAtEnd(t)
      case None => None
      case Some(span) => decode(span)
  }

  /** `safe_parse_json` of agent C. */
  function SafeParseJson(text: string, decode: Decoder): Option<Decoded> {
    ParseStripped(Strip(text), decode)
  }

  /** On text that does not end in a newline, the fallback decodes only a suffix from the first `{` that ends in `}`. */
  lemma ParseStrippedMeaning(t: string, decode: Decoder)
    requires t == [] || t[|t| - 1] != '\n'
    ensures decode(t).Some? ==> ParseStripped(t, decode) == decode(t)
    ensures decode(t).None? && ParseStripped(t, decode).Some? ==>
      && |t| >= 2 && t[|t| - 1] == '}'
      && exists i :: 0 <= i < |t| - 1 && t[i] == '{' && '{' !in t[..i] && ParseStripped(t, decode) == decode(t[i..])
    ensures decode(t).None? && (t == [] || t[|t| - 1] != '}') ==> ParseStripped(t, decode).None?
  {
    BraceSpanOfUnterminated(t);
    if decode(t).None? && BraceSpanAtEnd(t).Some? {
      var i :| 0 <= i < |t| - 1 && t[i] == '{' && '{' !in t[..i] && BraceSpanAtEnd(t).value == t[i..];
      assert ParseStripped(t, decode) == decode(t[i..]);
    }
  }

  /**
   * When the text does not decode as it stands, only the span from its
   * first `{` to its final `}` is tried; text not ending in `}` gives `None`.
   */
  lemma SafeParseJsonMeaning(text: string, decode: Decoder)
    ensures var t := Strip(text);
      && (decode(t).Some? ==> SafeParseJson(text, decode) == decode(t))
      && (decode(t).None? && SafeParseJson(text, decode).Some? ==>
            && |t| >= 2 && t[|t| - 1] == '}'
            && exists i :: 0 <= i < |t| - 1 && t[i] == '{' && '{' !in t[..i] && SafeParseJson(text, decode) == decode(t[i..]))
      && (decode(t).None? && (t == [] || t[|t| - 1] != '}') ==> SafeParseJson(text, decode).None?)
  {
    var t := Strip(text);
    if t != [] {
      assert IsSpace('\n') && t[|t| - 1] != '\n';
    }
    ParseStrippedMeaning(t, decode);
  }

  /** An object after prose without a `{` is recovered: the decoder sees exactly the object. */
  lemma SafeParseJsonAfterProse(text: string, pre: string, obj: string, decode: Decoder)
    requires Strip(text) == pre + obj
    requires decode(Strip(text)).None?
    requires |obj| >= 2 && obj[0] == '{' && obj[|obj| - 1] == '}'
    requires '{' !in pre
    ensures SafeParseJson(text, decode) == decode(obj)
  {
    BraceSpanOfTrailing(pre, obj);
  }

  /** One line of the news context: `[i] 標題:… | 日期:… | 摘要:… | URL:…`, numbered from 1. */
  function NewsLine(i: nat, it: NewsItem): string {
    "[" + NatToString(i) + "] 標題:" + it.title + " | 日期:" + it.eventDateGuess.GetOr("")
      + " | 摘要:" + it.summary + " | URL:" + it.url.GetOr("")
  }

  function NewsLines(items: seq<NewsItem>): (ls: seq<string>)
    ensures |ls| == |items| && forall i :: 0 <= i < |items| ==> ls[i] == NewsLine(i + 1, items[i])
  {
    seq(|items|, i requires 0 <= i < |items| => NewsLine(i + 1, items[i]))
  }

  /** The numbered context of `ask_llm_extract_events`. */
  method BuildNewsContext(items: seq<NewsItem>) returns (context: string)
    ensures context == Join(NewsLines(items), "\n")
  {
    var lines: seq<string> := [];
    for i := 0 to |items|
      invariant lines == NewsLines(items[..i])
    {
      lines := lines + [NewsLine(i + 1, items[i])];
    }
    assert items[..|items|] == items;
    context := Join(lines, "\n");
  }

  /** The model: its reply text for the company and the numbered news context. */
  type Model = (string, string) -> string

  /** `ask_llm_extract_events`: the parsed reply, whatever value it is, or the empty payload for the company. */
  function AskEvents(company: string, items: seq<NewsItem>, reply: Model, decode: Decoder): Decoded {
    match SafeParseJson(reply(company, Join(NewsLines(items), "\n")), decode)
    case Some(d) => d
    case None => EventsObject(EventsPayload(Some(company), []))
  }

  /**
   * A reply that does not parse yields the company with no events; one that
   * parses is passed on as parsed, even when it is not an events object.
   */
  lemma AskEventsFallback(company: string, items: seq<NewsItem>, reply: Model, decode: Decoder)
    ensures var parsed := SafeParseJson(reply(company, Join(NewsLines(items), "\n")), decode);
      && (parsed.None? ==> AskEvents(company, items, reply, decode) == EventsObject(EventsPayload(Some(company), [])))
      && (parsed.Some? ==> AskEvents(company, items, reply, decode) == parsed.value)
  {
  }

  /** The news item a citation names: an integer `i` with `1 <= i <= n` names the `i`-th item (`idx_map`). */
  function Lookup(c: Cite, items: seq<NewsItem>): (r: Option<NewsItem>)
    ensures r.Some? <==> CiteToInt(c).Some? && 1 <= CiteToInt(c).value <= |items|
    ensures r.Some? ==> r.value == items[CiteToInt(c).value - 1]
  {
    match CiteToInt(c)
    case None => None
    case Some(n) => if 1 <= n <= |items| then Some(items[n - 1]) else None
  }

  function SourceOf(it: NewsItem): Source {
    Source(it.title, it.url, it.published, it.summary, it.relevanceScore)
  }

  /** The source records of the citations, in citation order, skipping those that name no item. */
  function Sources(cites: seq<Cite>, items: seq<NewsItem>): seq<Source> {
    if cites == [] then []
    else
      var p, c := cites[..|cites| - 1], cites[|cites| - 1];
      Sources(p, items) + (match Lookup(c, items) case None => [] case Some(it) => [SourceOf(it)])
  }

  /** Sources of a concatenation are the sources of the parts, in order. */
  lemma {:induction false} SourcesConcat(a: seq<Cite>, b: seq<Cite>, items: seq<NewsItem>)
    ensures Sources(a + b, items) == Sources(a, items) + Sources(b, items)
  {
    if b == [] {
      assert a + b == a;
    } else {
      var b', c := b[..|b| - 1], b[|b| - 1];
      assert (a + b)[..|a + b| - 1] == a + b';
      assert (a + b)[|a + b| - 1] == c;
      SourcesConcat(a, b', items);
    }
  }

  /**
   * A citation that names no item (not an integer, or outside `1..n`, so
   * `0` and negative numbers included) contributes nothing; one that names
   * item `i` contributes that item's record.
   */
  lemma SourcesOfOne(c: Cite, items: seq<NewsItem>)
    ensures Lookup(c, items).None? ==> Sources([c], items) == []
    ensures Lookup(c, items).Some? ==> Sources([c], items) == [SourceOf(items[CiteToInt(c).value - 1])]
  {
    assert [c][..0] == [];
  }

  /** With every citation naming an item, the `i`-th source is the record of the item the `i`-th citation names. */
  lemma {:induction false} SourcesAllValid(cites: seq<Cite>, items: seq<NewsItem>)
    requires forall i :: 0 <= i < |cites| ==> Lookup(cites[i], items).Some?
    ensures |Sources(cites, items)| == |cites|
    ensures forall i :: 0 <= i < |cites| ==> Sources(cites, items)[i] == SourceOf(Lookup(cites[i], items).value)
  {
    if cites != [] {
      var p, c := cites[..|cites| - 1], cites[|cites| - 1];
      assert forall i :: 0 <= i < |p| ==> p[i] == cites[i];
      SourcesAllValid(p, items);
      assert Sources(cites, items) == Sources(p, items) + [SourceOf(Lookup(c, items).value)];
    }
  }

  /** Every source record is the record of one of the items. */
  lemma {:induction false} SourcesFromItems(cites: seq<Cite>, items: seq<NewsItem>)
    ensures forall s :: s in Sources(cites, items) ==> exists k :: 0 <= k < |items| && s == SourceOf(items[k])
    ensures |Sources(cites, items)| <= |cites|
  {
    if cites != [] {
      SourcesFromItems(cites[..|cites| - 1], items);
    }
  }

  /** One more citation adds the record of the item it names, if any. */
  lemma SourcesStep(cites: seq<Cite>, k: nat, items: seq<NewsItem>)
    requires k < |cites|
    ensures Sources(cites[..k + 1], items) ==
      Sources(cites[..k], items) + (match Lookup(cites[k], items) case None => [] case Some(it) => [SourceOf(it)])
  {
    assert cites[..k + 1][..k] == cites[..k];
  }

  /** The sources of one event's citations. */
  method CollectSources(cites: seq<Cite>, items: seq<NewsItem>) returns (sources: seq<Source>)
    ensures sources == Sources(cites, items)
  {
    sources := [];
    for k := 0 to |cites|
      invariant sources == Sources(cites[..k], items)
    {
      SourcesStep(cites, k, items);
      var ci := CiteToInt(cites[k]);
      if ci.None? {
        continue;
      }
      if !(1 <= ci.value <= |items|) {
        continue;
      }
      var it := items[ci.value - 1];
      sources := sources + [SourceOf(it)];
    }
    assert cites[..|cites|] == cites;
  }

  /** An event with its `sources` rebuilt from its citations. */
  function WithSources(e: Event, items: seq<NewsItem>): Event {
    e.(sources := Sources(e.citations, items))
  }

  /** What `enrich_event_sources` does with a parsed reply: rebuild every event's sources, or raise. */
  datatype Enrichment = Enriched(payload: EventsPayload) | EnrichRaises

  function EnrichPayload(d: Decoded, items: seq<NewsItem>): Enrichment {
    match d
    case NotEventsObject => EnrichRaises
    case EventsObject(p) =>
      Enriched(p.(events := seq(|p.events|, i requires 0 <= i < |p.events| => WithSources(p.events[i], items))))
  }

  /**
   * Agent C's parse followed by the enrichment raises exactly when the reply
   * parses to a value that is not an events object; the fallback for an
   * unparsable reply enriches to the company with no events. Otherwise the
   * company is kept and every event keeps its fields and gains the records
   * of the items it cites.
   */
  lemma AskAndEnrich(company: string, items: seq<NewsItem>, reply: Model, decode: Decoder)
    ensures var parsed := SafeParseJson(reply(company, Join(NewsLines(items), "\n")), decode);
      var r := EnrichPayload(AskEvents(company, items, reply, decode), items);
      && (r.EnrichRaises? <==> parsed == Some(NotEventsObject))
      && (parsed.None? ==> r == Enriched(EventsPayload(Some(company), [])))
      && (parsed.Some? && parsed.value.EventsObject? ==>
            var p := parsed.value.payload;
            && r.Enriched? && r.payload.selectedCompany == p.selectedCompany
            && |r.payload.events| == |p.events|
            && forall i :: 0 <= i < |p.events| ==>
                 r.payload.events[i] == p.events[i].(sources := Sources(p.events[i].citations, items)))
  {
    var parsed := SafeParseJson(reply(company, Join(NewsLines(items), "\n")), decode);
    AskEventsFallback(company, items, reply, decode);
    EnrichOutcome(company, parsed, AskEvents(company, items, reply, decode), items);
  }

  lemma EnrichOutcome(company: string, parsed: Option<Decoded>, d: Decoded, items: seq<NewsItem>)
    requires parsed.None? ==> d == EventsObject(EventsPayload(Some(company), []))
    requires parsed.Some? ==> d == parsed.value
    ensures var r := EnrichPayload(d, items);
      && (r.EnrichRaises? <==> parsed == Some(NotEventsObject))
      && (parsed.None? ==> r == Enriched(EventsPayload(Some(company), [])))
      && (parsed.Some? && parsed.value.EventsObject? ==>
            var p := parsed.value.payload;
            && r.Enriched? && r.payload.selectedCompany == p.selectedCompany
            && |r.payload.events| == |p.events|
            && forall i :: 0 <= i < |p.events| ==>
                 r.payload.events[i] == p.events[i].(sources := Sources(p.events[i].citations, items)))
  {
    if parsed.None? {
      assert EventsPayload(Some(company), []).(events := []) == EventsPayload(Some(company), []);
    }
  }

  /** `enrich_event_sources` on a parsed reply: the events are copied into an array and enriched in place. */
  method EnrichParsed(d: Decoded, items: seq<NewsItem>) returns (r: Enrichment)
    ensures r == EnrichPayload(d, items)
  {
    if d.NotEventsObject? {
      return EnrichRaises;
    }
    var p := d.payload;
    var events := new Event[|p.events|](i requires 0 <= i < |p.events| => p.events[i]);
    EnrichEventSources(events, items);
    r := Enriched(p.(events := events[..]));
    assert events[..] == seq(|p.events|, i requires 0 <= i < |p.events| => WithSources(p.events[i], items));
  }

  /** `enrich_event_sources`: every event, in place, gets the records of the items it cites; nothing else changes. */
  method EnrichEventSources(events: array<Event>, items: seq<NewsItem>)
    modifies events
    ensures forall i :: 0 <= i < events.Length ==> events[i] == WithSources(old(events[i]), items)
  {
    for i := 0 to events.Length
      invariant forall j :: 0 <= j < i ==> events[j] == WithSources(old(events[j]), items)
      invariant forall j :: i <= j < events.Length ==> events[j] == old(events[j])
    {
      var sources := CollectSources(events[i].citations, items);
      events[i] := events[i].(sources := sources);
    }
  }
}
