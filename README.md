# ESG greenwashing pipeline: a Dafny model of its agents and chunker

This project models the deterministic core of a greenwashing checker for
corporate sustainability reports. The checker has three agents and a chunker:

- **Agent A** (`agents/agent_a.py`) retrieves report passages. It decides
  which company they are about, honouring a preferred company when one is
  given. It asks a language model for the company's commitments ("claims")
  citing passage numbers, and parses the reply tolerantly. It then attaches
  an excerpt of each cited passage and merges duplicate claims.
- **Agent C** (`agents/agent_c.py`) collects negative news about the
  company:
  - six fixed search queries;
  - de-duplication of feed entries;
  - a similarity rerank;
  - a tolerant parse of the model's JSON object, with a fallback;
  - attachment of the cited news items to each event.
- **Agent D** (`agents/agent_d.py`) briefs both agents' results for its
  own prompt and picks the company name to show.
- **The chunker** (`chunks.py`) normalizes the whitespace of a report page
  and splits it into sentences at 。；！？. Every window of consecutive
  sentences, joined by "。", becomes a chunk when its length is between 50
  and 800.

The language model, the sentence embedder, retrieval and the JSON decoder
are parameters:
- a reply oracle (`nat -> string` indexed by attempt, or a function of the
  prompt inputs);
- a similarity function;
- an abstract partial decoder.

Scores are `real`. Records with optional keys are Dafny datatypes. A
missing string key reads as `""`, which is the default most of the source's
`.get` calls give. Where a `.get` has no default, or the value may be JSON
`null`, "## Left out" lists the difference. `Text.IsSpace` is exactly the
set of characters that `str.isspace()` and `\s` accept. Python has no
whitespace code point above U+3000.

Modules: `Wrappers` (Option), `PySeq` (Python slicing, `join`, first
occurrences), `Text` (`strip`, `normalize_ws`, `truncate`, `in`),
`Numbers` (`str`/`int` on citation numbers), `StrOrder`
(`sorted(set(...))` on strings), `StableSort` (`sorted(reverse=True)`),
`JsonSpan` (the two regex span fallbacks), `Evidence` (passages, citations,
excerpts, claims), `Company`, `Citations`, `ClaimDedupe`, `AgentA`,
`AgentC`, `AgentD`, `Chunks`.

Where the source loops or mutates, so does the model, and each method is
proved against a specification function:
- `RankCompanies` fills a score map;
- `BuildContext` builds the context and the citation map;
- `EnrichClaims` rewrites an `array<Claim>` in place;
- `DedupeClaims` is a one-pass dictionary merge;
- `DedupNews` uses a `seen` set;
- `EnrichEventSources` updates an `array<Event>` in place;
- `BuildClaimBrief` and `BuildNewsBrief` are append loops;
- `MakeChunks` is the stride loop.

The properties are lemmas about those functions.

## Model

| member | source | states |
|---|---|---|
| Text.NormalizeWsMeaning | agents/agent_a.py:36-37 | `normalize_ws` output is single-spaced (its only whitespace is isolated plain spaces), has no whitespace at either end, and keeps exactly the input's non-whitespace characters in order |
| Text.NormalizeWsIdempotent | chunks.py:17-18 | `normalize_ws(normalize_ws(s)) == normalize_ws(s)` |
| Text.NormalizeWsOfNormalized | agents/agent_c.py:27-28 | a normalized text is a fixed point of `normalize_ws` |
| Text.TrimLeft | agents/agent_c.py:117 | `lstrip()` removes exactly the leading run of whitespace: it returns a suffix that is empty or starts with non-whitespace, and everything removed is whitespace |
| Text.TrimRight | agents/agent_c.py:117 | `rstrip()` removes exactly the trailing run of whitespace: it returns a prefix that is empty or ends with non-whitespace, and everything removed is whitespace |
| Text.Strip | agents/agent_c.py:117 | `strip()` is a contiguous piece of the input starting after its leading whitespace, with a non-whitespace character at each end |
| Text.NonSpaceStrip | agents/agent_c.py:117 | stripping keeps every non-whitespace character |
| Text.Collapse | agents/agent_a.py:37 | `re.sub(r"\s+", " ", s)` is empty exactly when the input is, and keeps a leading non-whitespace character |
| Text.CollapseSingleSpaces | agents/agent_a.py:37 | after collapsing, whitespace occurs only as isolated plain spaces |
| Text.Cut | agents/agent_a.py:40-44 | the cut `truncate` applies to the normalized text leaves it as it is when `max_len` is 0 or the text fits; otherwise it keeps the first `max_len` characters followed by "...", so exactly `max_len + 3` long (for a negative `max_len`, all but the last `-max_len` characters plus "..."); for a positive `max_len` the result is never longer than `max_len + 3` |
| Text.NormalizeWsKeepsLast | chunks.py:28-29 | a text ending in a non-whitespace character still ends in it after `normalize_ws` |
| Text.AsciiLower | agents/agent_a.py:210 | lower-casing maps exactly the letters A-Z to a-z and keeps the length |
| Text.Contains | agents/agent_a.py:217 | `a in b` holds exactly when the needle occurs at some position |
| PySeq.Slice | agents/agent_a.py:42 | `s[lo:hi]` is `s[lo..hi]` for in-range bounds and never longer than `s` |
| PySeq.Take | agents/agent_d.py:15 | `s[:n]` is a prefix of length `min(n, len)` for `n >= 0` and `max(0, len + n)` for negative `n` |
| PySeq.Distinct | agents/agent_a.py:113-116 | the keys of a dict filled in order: no duplicates, the same elements, no longer than the input |
| PySeq.DistinctFirstOccurrenceOrder | agents/agent_a.py:113-116 | those keys come in the order in which they first occur |
| Numbers.ParseIntOfIntToString | agents/agent_a.py:181-184 | `int(str(i)) == i` for every integer |
| Numbers.ParseIntOfWide | agents/agent_a.py:181-184 | a number written in full-width digits (U+FF10..U+FF19) reads back as that number |
| Numbers.ParseIntIgnoresUnderscore | agents/agent_a.py:181-184 | an underscore between two groups of digits is ignored: `int(a + "_" + b) == int(a + b)`, the value of the digits |
| Numbers.ParseIntRejectsStrayUnderscore | agents/agent_a.py:181-184 | an underscore before the first digit, after the last, or next to another makes `int()` raise |
| Numbers.ParseIntNegative | agents/agent_a.py:181-184 | digits after a minus sign read as their value negated |
| StrOrder.SortedUnique | agents/agent_a.py:69 | `sorted(set(xs))` is strictly increasing and holds exactly the elements of `xs` |
| StrOrder.StrictlySortedUnique | agents/agent_a.py:69 | a set of strings has exactly one strictly sorted listing |
| StableSort.SortDesc | agents/agent_a.py:117 | the sort's output is in non-increasing key order and a permutation of the input |
| StableSort.SortDescStable | agents/agent_a.py:117 | for every key value, the elements with that key keep their input order |
| StableSort.SortDescMembers | agents/agent_c.py:106 | sorting keeps the length and the elements, and puts an element of greatest key first |
| StableSort.TopOfSorted | agents/agent_a.py:123-126 | the first entries of a sorted permutation come from the input, stay sorted, form a sub-multiset of it, and have keys at least those of every input element left out; the first has the greatest key |
| JsonSpan.BracketSpanMeaning | agents/agent_a.py:157 | the `\[[\s\S]*\]` match exists exactly when some `]` follows some `[`, and then runs from the first `[` to the last `]` |
| JsonSpan.BraceSpanAtEndMeaning | agents/agent_c.py:123 | the `\{[\s\S]*\}$` match starts at the first `{` and ends at a `}` that closes the text (or precedes a final newline) after it |
| JsonSpan.BraceSpanOfUnterminated | agents/agent_c.py:123 | on text not ending in a newline, a match is the suffix from the first `{`, and the text ends in `}`; text ending in anything else has no match |
| JsonSpan.BracketSpanOfWrapped | agents/agent_a.py:155-164 | an array wrapped in bracket-free prose is exactly the span found |
| JsonSpan.BraceSpanOfTrailing | agents/agent_c.py:123-129 | an object at the end of a text whose prefix has no `{` is exactly the span found |
| Company.MatchCompanyNameMeaning | agents/agent_a.py:207-217 | two names match exactly when both normalized names are non-empty and one occurs in the other |
| Company.MatchCompanyNameSymmetric | agents/agent_a.py:207-217 | the match is symmetric |
| Company.MatchCompanyNameEmpty | agents/agent_a.py:213-214 | a name that is empty once whitespace is removed matches nothing |
| Company.MatchCompanyNameExtended | agents/agent_a.py:207-217 | a name extended by any suffix (such as "台塑2024" for "台塑") matches the bare name |
| Company.MatchCompanyNameDifferent | agents/agent_a.py:207-217 | unrelated names do not match: "台積電" does not match "鴻海" |
| Company.MatchCompanyNameIgnoresCase | agents/agent_a.py:210-211 | case is ignored: "TSMC" matches "tsmc" |
| Company.MatchSameNormName | agents/agent_a.py:207-217 | two names whose normalized forms are equal and non-empty match |
| Company.FirstMatchMeaning | agents/agent_a.py:232-235 | the scan finds nothing exactly when no ranked name matches; otherwise it returns the first matching name in ranking order |
| Company.ChooseCompanyMeaning | agents/agent_a.py:220-241 | an empty ranking gives nothing; with a preference, the first ranked name matching it or nothing, never a non-matching name; without one, the top-ranked name |
| Company.RankCompanies | agents/agent_a.py:110-118 | the accumulation loop and sort return exactly `Ranking(results, topn)` |
| Company.RankingProperties | agents/agent_a.py:110-118 | the ranking lists distinct names, each a non-empty company of some passage paired with the sum of that company's passage scores, in non-increasing score order; for `topn >= 0` there are exactly `min(topn, companies)` of them |
| Company.RankingCoversAndStable | agents/agent_a.py:112-117 | the aggregated names are exactly the passages' non-empty companies, each once, and after sorting, names with equal totals keep their first-seen order |
| Company.RankingComplete | agents/agent_a.py:110-118 | with `topn` at least the number of companies, every company with a passage is ranked |
| Company.RankingTop | agents/agent_a.py:117 | no company's total exceeds the total at the head of the ranking |
| Company.RankingHead | agents/agent_a.py:110-118 | for a positive `topn`, the ranking is empty exactly when no passage names a company; otherwise its head is a non-empty company with the greatest total |
| Company.PickCompanyPassagesProperties | agents/agent_a.py:121-126 | the picked passages all belong to the company and form a sub-multiset of the input, best first; there are `min(limit, candidates)` of them; no omitted passage of the company outscores a kept one |
| Citations.ContextLineCitesItsPassage | agents/agent_a.py:133-142 | each context line opens with `[meta_id]`, and that number reads back as the passage's `meta_id` |
| Citations.BuildContext | agents/agent_a.py:129-146 | the loop returns the newline-joined lines and the citation map |
| Citations.CiteMapMeaning | agents/agent_a.py:131-144 | a number is in `cite_map` exactly when some passage carries it, and it maps to the last such passage |
| Citations.CiteMapOfDistinct | agents/agent_a.py:131-144 | with distinct `meta_id`s, every passage is the map's entry under its own number |
| Citations.CiteMapValues | agents/agent_a.py:131-144 | every entry of the map is one of the passages, filed under its own number |
| Citations.Resolve | agents/agent_a.py:180-188 | one citation yields at most one excerpt, and yields one exactly when `int()` reads it as an integer (a JSON integer, or text of ASCII or full-width digits with an optional sign and underscores between digits) that is a key of `cite_map` |
| Citations.SourceChunksFromCitations | agents/agent_a.py:179-199 | every excerpt comes from a cited number found in `cite_map`; it carries that number and the passage's company, year, page and score, and its text truncated to `chunk_maxlen` |
| Citations.SourceChunksAllResolve | agents/agent_a.py:179-199 | when every citation resolves, there is one excerpt per citation, in citation order |
| Citations.SourceChunksSkips | agents/agent_a.py:181-188 | a citation that is not an integer, or not a key of `cite_map`, contributes nothing |
| Citations.SourceChunksConcat | agents/agent_a.py:179-199 | the excerpts of concatenated citation lists are the concatenated excerpts |
| Citations.CopiedCitationResolves | agents/agent_a.py:133-189 | a citation copied from a context line, as a number or as text, yields an excerpt of exactly that passage |
| Citations.EnrichClaims | agents/agent_a.py:167-203 | every claim in the array is replaced, in place, by the claim with `source_chunks` rebuilt from its citations; no other field changes |
| Citations.EnrichedExcerptsFrom | agents/agent_a.py:176-201 | every attached excerpt is the excerpt of a passage in `cite_map` under its own number |
| ClaimDedupe.MergeCitesMeaning | agents/agent_a.py:67-70 | merged citations are strictly sorted text holding exactly the string forms of both lists |
| ClaimDedupe.MergeKeepsKey | agents/agent_a.py:64-74 | merging keeps the key and every field except citations and excerpts |
| ClaimDedupe.DedupeClaims | agents/agent_a.py:47-81 | the one-pass loop with a `seen` map returns exactly `Dedupe(claims, norm)` |
| ClaimDedupe.DedupeKeys | agents/agent_a.py:47-81 | the output keys are the input's distinct keys in first-occurrence order |
| ClaimDedupe.DedupeGroups | agents/agent_a.py:62-79 | each output claim has the first group member's fields and all the group's excerpts in order; its citations are unchanged for a singleton group and otherwise the sorted, duplicate-free text of all the group's citations |
| ClaimDedupe.DedupeIdempotent | agents/agent_a.py:47-81 | de-duplicating twice equals de-duplicating once |
| ClaimDedupe.DedupeOfDistinctKeys | agents/agent_a.py:47-81 | claims whose keys are already distinct pass through unchanged |
| ClaimDedupe.DedupeChunksFrom | agents/agent_a.py:72-74 | de-duplication invents no excerpt |
| AgentA.SafeParseJsonMeaning | agents/agent_a.py:149-164 | a stripped reply that decodes is taken whole; otherwise only the decoding of its bracket span can be returned, and a reply with no `[` that does not decode gives `None` |
| AgentA.SafeParseJsonInProse | agents/agent_a.py:149-164 | an array inside bracket-free prose reaches the decoder exactly |
| AgentA.AskLlmMeaning | agents/agent_a.py:292-332 | the stripped first reply is kept if it parses, and the stripped repair reply otherwise, whether or not that one parses |
| AgentA.AskLlmExtractClaims | agents/agent_a.py:245-332 | the method returns `AskLlm`'s reply together with the citation map of the passages |
| AgentA.FilterMatchingMeaning | agents/agent_a.py:352-357 | the filter keeps exactly the retrieved passages whose company matches the preference, in order |
| AgentA.AgentAEmptyRetrieval | agents/agent_a.py:348-349 | nothing retrieved: no model call, `ok` true, the preferred company echoed, no claims |
| AgentA.AgentANoMatchingPassage | agents/agent_a.py:352-366 | with a preference that no retrieved passage matches: no model call, `ok` true, the preference echoed, no claims |
| AgentA.SelectStops | agents/agent_a.py:360-393 | every early stop returns `ok` true, no claims and no `raw` |
| AgentA.SelectHonoursPreference | agents/agent_a.py:352-380 | with a preference, the chosen company matches it and its passages are retrieved passages of that company; a stop reports the preference |
| AgentA.AgentAHonoursPreference | agents/agent_a.py:352-380 | with a preference, a returned result names the preference or a matching company, never another one |
| AgentA.AgentAPicksTopCompany | agents/agent_a.py:382-399 | without a preference, the company worked on has the greatest total score; when no passage has a company, nothing is asked and `selected_company` is `None` |
| AgentA.SelectedPassages | agents/agent_a.py:375-399 | the passages shown to the model are retrieved passages of the selected company |
| AgentA.SelectCompany | agents/agent_a.py:345-399 | steps 1 to 4, with the ranking built by the loop, equal `Select` |
| AgentA.FinishCalls | agents/agent_a.py:294-332 | past the early stops the model is asked once, or twice exactly when the first reply does not parse |
| AgentA.AgentAModelCalls | agents/agent_a.py:294-410 | at most two model calls in all: none on an early stop, and a second exactly when the first reply does not parse |
| AgentA.ConcludeMeaning | agents/agent_a.py:408-429 | an unparsed reply gives `ok` false with the company, no claims and `raw`; a parsed one that returns succeeds for the company without `raw`; the run raises exactly when the decoded value is not a claim list |
| AgentA.FinishReportsCompany | agents/agent_a.py:404-429 | once the model is asked, every returned result names the selected company |
| AgentA.FinishParseFailure | agents/agent_a.py:408-417 | past the early stops, `ok` is false exactly when the repair reply does not parse either, and only then is `raw` returned |
| AgentA.AgentAParseFailure | agents/agent_a.py:408-417 | `ok` false happens exactly when neither reply parses; the result then carries the stripped repair reply as `raw` and no claims, and no other path carries `raw` |
| AgentA.PostProcess | agents/agent_a.py:420-423 | enriching in place and then de-duplicating gives `Dedupe(EnrichAll(claims, cite_map, 160), normalize_ws)` |
| AgentA.PostProcessedGrounded | agents/agent_a.py:420-423 | after post-processing no two claims share a key, and every excerpt is the excerpt of a passage shown to the model under its `meta_id` |
| AgentA.AgentAClaimsGrounded | agents/agent_a.py:336-429 | every excerpt in a successful result is a 160-character excerpt of a retrieved passage of the selected company, under its `meta_id`, and no two claims share a key |
| AgentA.AgentAExtractClaims | agents/agent_a.py:336-429 | the method composition (select, ask, parse, enrich in place, de-duplicate) returns `ExtractClaims` |
| AgentC.BuildQueriesMeaning | agents/agent_c.py:31-40 | exactly six queries, the i-th being `company.strip()`, a space and the i-th topic |
| AgentC.BuildQueriesDistinct | agents/agent_c.py:31-40 | the six queries are pairwise different |
| AgentC.QueryTopicsDistinct | agents/agent_c.py:33-39 | the six topics are non-empty and pairwise different |
| AgentC.DedupNews | agents/agent_c.py:81-90 | the loop with a `seen` set returns exactly `DedupBy(items, key)` |
| AgentC.DedupNewsMeaning | agents/agent_c.py:81-90 | for any key (agent C uses `(title, url)`), the result is a subsequence of the input in which no two items share a key; every input key survives, represented by its first item |
| AgentC.DedupByKeys | agents/agent_c.py:81-90 | the kept keys are the input's distinct keys in first-occurrence order |
| AgentC.DedupNewsMergesSameTitle | agents/agent_c.py:85 | two feed entries with the same title and different links collapse into the first |
| AgentC.DedupNewsByLinkKeepsArticles | agents/agent_c.py:59-66 | keyed by `(title, link)`, every distinct article survives, including the two above |
| AgentC.EmbRerank | agents/agent_c.py:93-113 | the output loop returns exactly `Reranked(company, items, topk)` |
| AgentC.RerankedProperties | agents/agent_c.py:93-113 | empty input gives []; otherwise `min(topk, n)` items, each an input item carrying its own score, in non-increasing score order, the first at least as high as every input item |
| AgentC.TopScoredProperties | agents/agent_c.py:106 | the kept pairs are sorted by score, at most `topk` of them, each an item with its own score |
| AgentC.SafeParseJsonMeaning | agents/agent_c.py:116-129 | a stripped text that decodes is taken whole; otherwise only the decoding of the span from its first `{` to its final `}` can be returned, and a text not ending in `}` that does not decode gives `None` |
| AgentC.SafeParseJsonAfterProse | agents/agent_c.py:116-129 | an object after `{`-free prose reaches the decoder exactly |
| AgentC.AskEventsFallback | agents/agent_c.py:189-196 | a reply that parses is passed on as parsed, whether or not it is an events object; one that does not gives `{"selected_company": company, "events": []}` |
| AgentC.AskAndEnrich | agents/agent_c.py:189-222 | parsing then enriching raises exactly when the reply parses to a value that is not an events object; the fallback enriches to the company with no events; an events object keeps its company and every event gains the records of the items it cites |
| AgentC.EnrichParsed | agents/agent_c.py:199-222 | copying the events into an array and enriching them in place gives exactly `EnrichPayload`, raising on a value that is not an events object |
| AgentC.BuildNewsContext | agents/agent_c.py:133-139 | the loop builds the newline-joined, 1-numbered context lines |
| AgentC.Lookup | agents/agent_c.py:200-211 | a citation names item `i` exactly when it reads as an integer `i` with `1 <= i <= n`; then it names the i-th item |
| AgentC.SourcesOfOne | agents/agent_c.py:204-211 | a citation that is not an integer or falls outside `1..n` contributes nothing; one naming item `i` contributes that item's record |
| AgentC.SourcesAllValid | agents/agent_c.py:203-219 | when every citation names an item, the i-th source is the record of the item the i-th citation names |
| AgentC.SourcesConcat | agents/agent_c.py:203-219 | the sources of a concatenation of citation lists are the concatenated sources, in citation order |
| AgentC.SourcesFromItems | agents/agent_c.py:212-218 | every source record is the record of one of the news items, and there are never more sources than citations |
| AgentC.CollectSources | agents/agent_c.py:203-219 | the inner loop returns exactly `Sources(citations, items)` |
| AgentC.EnrichEventSources | agents/agent_c.py:199-222 | every event in the array gets, in place, the records of the items it cites; no other field changes |
| AgentD.BuildClaimBrief | agents/agent_d.py:8-24 | the append loop returns exactly `ClaimBrief(claims, limit)` |
| AgentD.ClaimBriefProperties | agents/agent_d.py:13-23 | missing claims give []; at most `min(limit, n)` entries (exactly that for `limit >= 0`); entry i copies claim i's text, topic, target year and certainty, and its ids are exactly the present `meta_id`s |
| AgentD.MetaIdsMeaning | agents/agent_d.py:16-22 | an id is listed exactly when some excerpt carries it; never more ids than excerpts; when every excerpt has one, the ids are theirs in order |
| AgentD.MetaIdsConcat | agents/agent_d.py:22 | the ids of concatenated excerpt lists are the concatenated ids |
| AgentD.BuildNewsBrief | agents/agent_d.py:26-41 | the append loop returns exactly `NewsBrief(events, limit)` |
| AgentD.NewsBriefProperties | agents/agent_d.py:31-40 | missing events give []; at most `min(limit, n)` entries (exactly that for `limit >= 0`); entry i holds exactly what event i has under the five keys |
| AgentD.NewsEntryOfPromptShapedEvent | agents/agent_d.py:35-39 | an event with only the keys agent C's prompt asks for is briefed with all five fields empty |
| AgentD.ShownCompanyMeaning | agents/agent_d.py:48 | the company shown is never empty: agent A's if truthy, otherwise agent C's if truthy, otherwise "目標公司" |
| Chunks.PiecesMeaning | chunks.py:22 | `re.split` on 。；！？ yields one more piece than there are stops; no piece holds a stop; the pieces concatenated are the text without its stops |
| Chunks.SplitSentencesProperties | chunks.py:20-23 | every sentence is non-empty, with non-whitespace at both ends (so not whitespace-only), already normalized and stripped, and holds none of 。；！？ |
| Chunks.SplitSentencesKeepsText | chunks.py:20-23 | splitting loses only whitespace and stops: the sentences' non-whitespace characters, concatenated, are the text's non-whitespace non-stop characters in order |
| Chunks.MakeChunks | chunks.py:25-32 | the stride loop returns exactly `MakeChunksSpec(sents, window, stride, norm)` |
| Chunks.MakeChunksProperties | chunks.py:25-32 | for a positive stride, every chunk has length in [50, 800], is normalized and ends with "。"; there are at most `max(0, len(sents) - window + 1)` chunks, and none when `len(sents) < window` |
| Chunks.MakeChunksFixed | chunks.py:29-30 | `normalize_ws` leaves every chunk as it is, so the filter's measured length is the stored chunk's length |
| Chunks.MakeChunksMembers | chunks.py:27-31 | for any normalizer, a text is a chunk exactly when it is the normalized "。"-join (plus "。") of `sents[i:i+window]` for a start `i = k*stride` in the range, and its length passes the filter |
| Chunks.ChunksFromMembers | chunks.py:27-31 | the same characterization for the range from any start: both directions |
| Chunks.StartValue | chunks.py:27 | the k-th start of the range is `i + k*stride` |
| Chunks.StrideOneStarts | chunks.py:27 | with stride 1, the k-th start is k, so every window start is tried |
| Chunks.MakeChunksBadStride | chunks.py:27 | a zero stride makes `range` raise (`None`); a negative stride gives no chunks |
| Chunks.WindowOfSplitSentences | chunks.py:28-29 | for sentences from `split_sentences`, the `normalize_ws` in `make_chunks` changes nothing: a chunk is its sentences joined and closed by "。" |
| Chunks.ClosedNormalized | chunks.py:28 | joining normalized sentences by "。" and appending "。" gives normalized text |

## Left out

- Retrieval (`retrieve_all`, agents/agent_a.py:84-107): FAISS search and the embedder are foreign numeric libraries. The model takes the retrieved passages as input.
- The embedder's dot product in `emb_rerank`: it is an abstract `Similarity` function. Scores are reals, so float rounding is not modelled.
- The `ollama.chat` calls and the prompt wording in all three agents: the untrusted service is a reply oracle, and the prompt text has no checkable meaning.
  - `ask_llm_extract_events`: only its context lines, its parse and its fallback are modelled.
  - `agent_d_judge`: its prompt and model call are left out. Only its company fallback and the two briefs are modelled.
- `json.loads` is an abstract partial decoder. Agent A's decoder yields a claim list, an empty non-list value, or another value. A non-list that `enrich_claims_with_source_chunks` cannot iterate is the outcome `Raises`. Agent C's decoder yields an events object or a value `enrich_event_sources` raises on, which is the outcome `EnrichRaises`. The decoder decides which values are which; how Python walks odd values (a string as `events` or `source_citations`, iterated character by character) is not modelled further. Floats or booleans as citations and claims that are not objects are not modelled.
- `Numbers.ParseInt`: reads ASCII and full-width digits. Python's `int()` also accepts the decimal digits of other scripts (Arabic-Indic, Devanagari and the rest of Unicode category Nd); those read as not a number here. Its 4300-digit limit is not modelled either.
- `Citations.Resolve`: a citation in decimal digits of a script other than ASCII or full-width is dropped, where the source resolves it (see `Numbers.ParseInt`).
- `Citations.SourceChunksSkips`: its "not an integer" case includes such digits of other scripts (see `Numbers.ParseInt`).
- `AgentC.Lookup`: a citation in decimal digits of another script names no item, where the source finds one (see `Numbers.ParseInt`).
- `AgentC.SourcesOfOne`: such a citation contributes nothing, where the source contributes the item's record (see `Numbers.ParseInt`).
- `AgentD.ClaimBrief`, `ClaimDedupe.Key`: a claim's text fields are typed strings. `build_claim_brief` copies `claim_text`, `topic` and `certainty` with a bare `.get`, so the source writes `null` for a missing key where the model writes `""`. A JSON `null` topic or metric also reads like a missing key, so the dedupe key treats `None` and `""` alike where the source keys them apart.
- `fetch_google_rss` and `parse_date_safe` (agents/agent_c.py:43-78): network I/O and feedparser. The date parser is a parameter.
- Orchestrators and I/O:
  - The agent C orchestrator `agent_c` (agents/agent_c.py:225-249) is only glue between the modelled steps.
  - `app.py`, `build_faiss_only.py` and the module-level script in `chunks.py` (PDF reading, CSV and index writing) are I/O.
  - The module-level model singletons, the `print` logging and the `__main__` blocks are also left out.
- Over-long candidate chunks or passages of a non-string type are not modelled. Every text is a `string`.
- `Text.AsciiLower`: models `str.lower()` on ASCII letters only. Non-ASCII case folding is not modelled.
- `AgentC.DedupNews`: an item with a `url` key whose value is `None` and an item without the key (`""`) are keyed alike. The source keys them apart, but feed items never carry `url`.
- `Chunks.MakeChunks`: the normalizer is a parameter. The chunker passes `normalize_ws`, and the properties are proved for that instance.
- `ClaimDedupe.DedupeClaims`: the text normalization is a parameter. Agent A passes `normalize_ws`.
- The deep copy in `dedupe_claims` is not modelled as such. Claims are values, so the input list is never changed.

## Findings

| source | as written | input that shows it | evidently intended | confidence | as-written member | corrected member |
|---|---|---|---|---|---|---|
| agents/agent_c.py:85 | `dedup_news` keys items on `(title, url)`, but the feed items built at agents/agent_c.py:59-66 have a `link` and no `url`, so the key is `(title, "")` | two feed entries with the same title and different links | distinct articles are kept apart: key on `(title, link)` | medium, not executed | AgentC.DedupNewsMergesSameTitle | AgentC.DedupNewsByLinkKeepsArticles |

A related observation, not listed as a finding because the intended fields
are not evident: `build_news_brief` (agents/agent_d.py:35-39) reads
`title`, `published`, `summary`, `link` and `relevance_score` from agent C's
events. An event written in the shape agent C's prompt asks for has none of
these keys (AgentD.NewsEntryOfPromptShapedEvent).
