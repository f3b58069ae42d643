/**
 * Agent A end to end: pick the company the retrieved passages are about
 * (honouring the user's preferred company), ask the language model for
 * commitments citing those passages, parse its reply, attach excerpts and
 * merge duplicates.
 *
 * Retrieval, the model and JSON decoding are outside the model: the
 * retrieved passages are an input, `reply(company, context, attempt)` is
 * the text the model returns on the given attempt (0 for the first prompt,
 * 1 for the repair prompt), and `decode` is `json.loads`, with `None` for
 * text that does not decode or decodes to `null`.
 */
module AgentA {
  import opened Wrappers
  import opened PySeq
  import opened Text
  import opened JsonSpan
  import opened Evidence
  import opened Company
  import opened Citations
  import opened ClaimDedupe

  const RetrieveTopK := 500
  const CompanyTopN := 5
  const PassagesForSelected := 30
  const CiteChunkMaxLen := 160

  /**
   * What a decoded reply is to the post-processing: a list of claim
   * objects; an empty object or empty string, which iterates as nothing;
   * or anything else (a number, a non-empty object or string, a list with
   * a non-object in it), on which the enricher raises.
   */
  datatype Payload = ClaimList(claims: seq<Claim>) | EmptyNonList | NotClaims

  /** The JSON decoder: `Some` of the value, or `None` when `json.loads` raises or yields `null`. */
  type Decoder = string -> Option<Payload>

  /** The model: its reply text for the selected company and context on attempt 0 (first prompt) or 1 (repair prompt). */
  type Model = (string, string, nat) -> string

  /** `safe_parse_json` of agent A: the stripped text, or failing that the span from its first `[` to its last `]`. */
  function SafeParseJson(text: string, decode: Decoder): Option<Payload> {
    var t := Strip(text);
    match decode(t)
    case Some(v) => Some(v)
    case None =>
      match BracketSpan(t)
      case None => None
      case Some(span) => decode(span)
  }

  /** A JSON array wrapped in prose without brackets is recovered: the decoder sees exactly the array. */
  lemma SafeParseJsonInProse(text: string, pre: string, arr: string, post: string, decode: Decoder)
    requires Strip(text) == pre + arr + post
    requires decode(Strip(text)).None?
    requires |arr| >= 2 && arr[0] == '[' && arr[|arr| - 1] == ']'
    requires '[' !in pre && ']' !in post
    ensures SafeParseJson(text, decode) == decode(arr)
  {
    BracketSpanOfWrapped(pre, arr, post);
  }

  /** A reply that the decoder accepts as it stands is taken as it stands; one that parses at all parsed whole or from its bracket span. */
  lemma SafeParseJsonMeaning(text: string, decode: Decoder)
    ensures decode(Strip(text)).Some? ==> SafeParseJson(text, decode) == decode(Strip(text))
    ensures SafeParseJson(text, decode).Some? ==>
              decode(Strip(text)).Some?
              || (BracketSpan(Strip(text)).Some? && SafeParseJson(text, decode) == decode(BracketSpan(Strip(text)).value))
    ensures (forall i :: 0 <= i < |Strip(text)| ==> Strip(text)[i] != '[') && decode(Strip(text)).None? ==>
              SafeParseJson(text, decode).None?
  {
    BracketSpanMeaning(Strip(text));
  }

  /** The context handed to the model. */
  function Context(passages: seq<Passage>): string {
    Join(ContextLines(passages), "\n")
  }

  /** `ask_llm_extract_claims`: the stripped first reply if it parses, else the stripped repair reply; and the number of model calls. */
  function AskLlm(company: string, passages: seq<Passage>, reply: Model, decode: Decoder): (r: (string, nat))
    ensures 1 <= r.1 <= 2
  {
    var first := Strip(reply(company, Context(passages), 0));
    if SafeParseJson(first, decode).Some? then (first, 1)
    else (Strip(reply(company, Context(passages), 1)), 2)
  }

  /** `ask_llm_extract_claims`, returning also the citation map. */
  method AskLlmExtractClaims(company: string, passages: seq<Passage>, reply: Model, decode: Decoder)
    returns (raw: string, citeMap: map<int, Passage>, calls: nat)
    ensures (raw, calls) == AskLlm(company, passages, reply, decode)
    ensures citeMap == CiteMap(passages)
  {
    var context;
    context, citeMap := BuildContext(passages);
    raw := Strip(reply(company, context, 0));
    calls := 1;
    if SafeParseJson(raw, decode).Some? {
      return;
    }
    raw := Strip(reply(company, context, 1));
    calls := 2;
  }

  /** The result dict of `agent_a_extract_claims`: `raw` is present only on the parse-failure path. */
  datatype AgentAResult = AgentAResult(ok: bool, selectedCompany: Option<string>, claims: seq<Claim>, raw: Option<string>)

  /** A returned result, or an exception escaping from the post-processing. */
  datatype Outcome = Returned(result: AgentAResult) | Raises

  /** The pipeline before the model is asked: an early return, or the company and passages to extract from. */
  datatype Stage = Stop(result: AgentAResult) | Extract(company: string, passages: seq<Passage>)

  /** `[r for r in results if match_company_name(r.get("company", ""), preferred)]`. */
  function FilterMatching(rs: seq<Passage>, preferred: string): seq<Passage> {
    if rs == [] then []
    else (if MatchCompanyName(rs[0].company, preferred) then [rs[0]] else []) + FilterMatching(rs[1..], preferred)
  }

  /** The filter keeps exactly the passages whose company matches. */
  lemma {:induction false} FilterMatchingMeaning(rs: seq<Passage>, preferred: string)
    ensures forall p :: p in FilterMatching(rs, preferred) <==> p in rs && MatchCompanyName(p.company, preferred)
  {
    if rs != [] {
      FilterMatchingMeaning(rs[1..], preferred);
      assert rs == [rs[0]] + rs[1..];
    }
  }

  function NoClaims(selected: Option<string>): AgentAResult {
    AgentAResult(true, selected, [], None)
  }

  /** Step 4: no company chosen stops with `reported` as the company; otherwise the chosen company's best passages of `base`. */
  function Pick(base: seq<Passage>, selected: Option<string>, reported: Option<string>): Stage {
    if !Truthy(selected) then Stop(NoClaims(reported))
    else Extract(selected.value, PickCompanyPassages(base, selected.value, PassagesForSelected))
  }

  /** Steps 1 to 4 of `agent_a_extract_claims`. */
  function Select(results: seq<Passage>, preferred: Option<string>): Stage {
    if results == [] then Stop(NoClaims(preferred))
    else if Truthy(preferred) then
      var filtered := FilterMatching(results, preferred.value);
      if filtered == [] then Stop(NoClaims(preferred))
      else Pick(filtered, ChooseCompany(Ranking(filtered, CompanyTopN), preferred), preferred)
    else
      var ranked := Ranking(results, CompanyTopN);
      if ranked == [] then Stop(NoClaims(None))
      else Pick(results, ChooseCompany(ranked, None), None)
  }

  /** The passages handed on are passages of `base` of the chosen company. */
  lemma PickPassages(base: seq<Passage>, selected: Option<string>, reported: Option<string>)
    ensures var s := Pick(base, selected, reported);
      s.Extract? ==> s.company == selected.value && forall q :: q in s.passages ==> q in base && q.company == s.company
  {
    if Truthy(selected) {
      PickCompanyPassagesProperties(base, selected.value, PassagesForSelected);
    }
  }

  /** The claims after `enrich_claims_with_source_chunks`. */
  function EnrichAll(cs: seq<Claim>, citeMap: map<int, Passage>, maxLen: int): (r: seq<Claim>)
    ensures |r| == |cs| && forall i :: 0 <= i < |cs| ==> r[i] == Enriched(cs[i], citeMap, maxLen)
  {
    seq(|cs|, i requires 0 <= i < |cs| => Enriched(cs[i], citeMap, maxLen))
  }

  /** Step 7: the parsed claims, enriched with excerpts of the passages shown to the model, then de-duplicated. */
  function PostProcessed(cs: seq<Claim>, passages: seq<Passage>): seq<Claim> {
    Dedupe(EnrichAll(cs, CiteMap(passages), CiteChunkMaxLen), NormalizeWs)
  }

  /** How a parsed reply ends the pipeline. */
  function Conclude(company: string, passages: seq<Passage>, raw: string, parsed: Option<Payload>): Outcome {
    match parsed
    case None => Returned(AgentAResult(false, Some(company), [], Some(raw)))
    case Some(NotClaims) => Raises
    case Some(EmptyNonList) => Returned(NoClaims(Some(company)))
    case Some(ClaimList(cs)) => Returned(NoClaims(Some(company)).(claims := PostProcessed(cs, passages)))
  }

  /** Steps 5 to 7: ask, parse, post-process. */
  function Finish(company: string, passages: seq<Passage>, reply: Model, decode: Decoder): (Outcome, nat) {
    var asked := AskLlm(company, passages, reply, decode);
    (Conclude(company, passages, asked.0, SafeParseJson(asked.0, decode)), asked.1)
  }

  /** What `agent_a_extract_claims` does, and how many times it calls the model. */
  function ExtractClaims(results: seq<Passage>, preferred: Option<string>, reply: Model, decode: Decoder): (Outcome, nat) {
    Run(Select(results, preferred), reply, decode)
  }

  /** An early stop returns its result without asking the model; otherwise steps 5 to 7 run. */
  function Run(stage: Stage, reply: Model, decode: Decoder): (Outcome, nat) {
    match stage
    case Stop(r) => (Returned(r), 0)
    case Extract(company, passages) => Finish(company, passages, reply, decode)
  }

  /** Steps 1 to 4 of `agent_a_extract_claims`, with the ranking computed by `RankCompanies`. */
  method SelectCompany(results: seq<Passage>, preferred: Option<string>) returns (stage: Stage)
    ensures stage == Select(results, preferred)
  {
    if results == [] {
      return Stop(NoClaims(preferred));
    }
    if Truthy(preferred) {
      var filtered := FilterMatching(results, preferred.value);
      if filtered == [] {
        return Stop(NoClaims(preferred));
      }
      var companyRanked := RankCompanies(filtered, CompanyTopN);
      var selected := ChooseCompany(companyRanked, preferred);
      if !Truthy(selected) {
        return Stop(NoClaims(preferred));
      }
      stage := Extract(selected.value, PickCompanyPassages(filtered, selected.value, PassagesForSelected));
    } else {
      var companyRanked := RankCompanies(results, CompanyTopN);
      if companyRanked == [] {
        return Stop(NoClaims(None));
      }
      var selected := ChooseCompany(companyRanked, None);
      if !Truthy(selected) {
        return Stop(NoClaims(None));
      }
      stage := Extract(selected.value, PickCompanyPassages(results, selected.value, PassagesForSelected));
    }
  }

  /** Steps 5 to 7 of `agent_a_extract_claims`: the claims are enriched in place in an array, then de-duplicated. */
  method ExtractFrom(company: string, passages: seq<Passage>, reply: Model, decode: Decoder)
    returns (outcome: Outcome, calls: nat)
    ensures (outcome, calls) == Finish(company, passages, reply, decode)
  {
    var raw, citeMap;
    raw, citeMap, calls := AskLlmExtractClaims(company, passages, reply, decode);
    var parsed := SafeParseJson(raw, decode);
    outcome := ConcludeReply(company, passages, citeMap, raw, parsed);
  }

  /** Step 7 on the parsed reply: report a parse failure, raise on a non-list, or post-process the claims. */
  method ConcludeReply(company: string, passages: seq<Passage>, citeMap: map<int, Passage>, raw: string, parsed: Option<Payload>)
    returns (outcome: Outcome)
    requires citeMap == CiteMap(passages)
    ensures outcome == Conclude(company, passages, raw, parsed)
  {
    if parsed.None? {
      return Returned(AgentAResult(false, Some(company), [], Some(raw)));
    }
    match parsed.value
    case NotClaims =>
      outcome := Raises;
    case EmptyNonList =>
      outcome := Returned(NoClaims(Some(company)));
    case ClaimList(cs) =>
      var claims := PostProcess(cs, citeMap);
      outcome := Returned(NoClaims(Some(company)).(claims := claims));
  }


  /** Step 7: enrich the parsed claims in place, then de-duplicate them. */
  method PostProcess(cs: seq<Claim>, citeMap: map<int, Passage>) returns (claims: seq<Claim>)
    ensures claims == Dedupe(EnrichAll(cs, citeMap, CiteChunkMaxLen), NormalizeWs)
  {
    var arr := new Claim[|cs|](i requires 0 <= i < |cs| => cs[i]);
    EnrichClaims(arr, citeMap, CiteChunkMaxLen);
    assert arr[..] == EnrichAll(cs, citeMap, CiteChunkMaxLen);
    claims := DedupeClaims(arr[..], NormalizeWs);
  }

  /** `agent_a_extract_claims` over already retrieved passages. */
  method AgentAExtractClaims(results: seq<Passage>, preferred: Option<string>, reply: Model, decode: Decoder)
    returns (outcome: Outcome, calls: nat)
    ensures (outcome, calls) == ExtractClaims(results, preferred, reply, decode)
  {
    var stage := SelectCompany(results, preferred);
    match stage
    case Stop(r) =>
      outcome, calls := Returned(r), 0;
    case Extract(company, passages) =>
      outcome, calls := ExtractFrom(company, passages, reply, decode);
  }

  /** Nothing retrieved: no model call, and the preferred company is echoed back with no claims. */
  lemma AgentAEmptyRetrieval(preferred: Option<string>, reply: Model, decode: Decoder)
    ensures ExtractClaims([], preferred, reply, decode) == (Returned(NoClaims(preferred)), 0)
  {
  }

  /**
   * A preference that no retrieved passage matches: no model call, and the
   * preference is echoed back with no claims.
   */
  lemma AgentANoMatchingPassage(results: seq<Passage>, preferred: Option<string>, reply: Model, decode: Decoder)
    requires Truthy(preferred)
    requires forall q :: q in results ==> !MatchCompanyName(q.company, preferred.value)
    ensures ExtractClaims(results, preferred, reply, decode) == (Returned(NoClaims(preferred)), 0)
  {
    var filtered := FilterMatching(results, preferred.value);
    FilterMatchingMeaning(results, preferred.value);
    assert forall i :: 0 <= i < |filtered| ==> filtered[i] in filtered;
  }

  /** Once the model has been asked, a returned result names the company worked on. */
  lemma FinishReportsCompany(company: string, passages: seq<Passage>, reply: Model, decode: Decoder)
    ensures var out := Finish(company, passages, reply, decode).0;
      out.Returned? ==> out.result.selectedCompany == Some(company)
  {
    var asked := AskLlm(company, passages, reply, decode);
    ConcludeMeaning(company, passages, asked.0, SafeParseJson(asked.0, decode));
  }

  /** With a preferred company, the company chosen matches it and its passages are retrieved passages of that company. */
  lemma SelectHonoursPreference(results: seq<Passage>, preferred: Option<string>)
    requires Truthy(preferred)
    ensures Select(results, preferred).Extract? ==> var s := Select(results, preferred);
      && MatchCompanyName(s.company, preferred.value)
      && forall q :: q in s.passages ==> q in results && q.company == s.company
    ensures Select(results, preferred).Stop? ==> Select(results, preferred).result.selectedCompany == preferred
  {
    var s := Select(results, preferred);
    if s.Extract? {
      var filtered := FilterMatching(results, preferred.value);
      ChooseCompanyMeaning(Ranking(filtered, CompanyTopN), preferred);
      SelectedPassages(results, preferred);
    }
  }

  /**
   * With a preferred company, no other company is ever substituted: a
   * returned result names either a matching company or the preference itself.
   */
  lemma AgentAHonoursPreference(results: seq<Passage>, preferred: Option<string>, reply: Model, decode: Decoder)
    requires Truthy(preferred)
    ensures ExtractClaims(results, preferred, reply, decode).0.Returned? ==>
      var r := ExtractClaims(results, preferred, reply, decode).0.result;
      r.selectedCompany == preferred
      || (r.selectedCompany.Some? && MatchCompanyName(r.selectedCompany.value, preferred.value))
  {
    var s := Select(results, preferred);
    SelectHonoursPreference(results, preferred);
    if s.Extract? {
      FinishReportsCompany(s.company, s.passages, reply, decode);
    }
  }

  /**
   * Without a preference, the company worked on is the one whose passages
   * have the greatest total score; if no passage names a company, nothing
   * is asked and no company is reported (unless nothing was retrieved at
   * all, when the falsy preference itself is echoed back).
   */
  lemma AgentAPicksTopCompany(results: seq<Passage>, preferred: Option<string>)
    requires !Truthy(preferred)
    ensures Companies(results) == [] ==>
      Select(results, preferred) == Stop(NoClaims(if results == [] then preferred else None))
    ensures Companies(results) != [] ==> var s := Select(results, preferred);
      && s.Extract?
      && s.company in Companies(results)
      && forall d :: d in Companies(results) ==> Total(results, d) <= Total(results, s.company)
  {
    RankingHead(results, CompanyTopN);
    if Companies(results) != [] {
      assert results != [];
    }
  }


  /** Every early stop reports success with no claims and no raw reply. */
  lemma SelectStops(results: seq<Passage>, preferred: Option<string>)
    ensures var s := Select(results, preferred);
      s.Stop? ==> s.result.ok && s.result.claims == [] && s.result.raw.None?
  {
  }

  /** Once past the early stops, the model is asked once, or twice when the first reply does not parse. */
  lemma FinishCalls(company: string, passages: seq<Passage>, reply: Model, decode: Decoder)
    ensures var calls := Finish(company, passages, reply, decode).1;
      && 1 <= calls <= 2
      && (calls == 2 <==> SafeParseJson(Strip(reply(company, Context(passages), 0)), decode).None?)
  {
  }

  /**
   * The model is called at most twice: never when the pipeline stops early,
   * a second time exactly when the first reply does not parse.
   */
  lemma AgentAModelCalls(results: seq<Passage>, preferred: Option<string>, reply: Model, decode: Decoder)
    ensures var calls := ExtractClaims(results, preferred, reply, decode).1;
      && calls <= 2
      && (calls == 0 <==> Select(results, preferred).Stop?)
      && (calls == 2 <==> var s := Select(results, preferred);
            s.Extract? && SafeParseJson(Strip(reply(s.company, Context(s.passages), 0)), decode).None?)
  {
    var s := Select(results, preferred);
    if s.Extract? {
      FinishCalls(s.company, s.passages, reply, decode);
    }
  }

  /** The reply kept is the first one when it parses and the repair reply otherwise. */
  lemma AskLlmMeaning(company: string, passages: seq<Passage>, reply: Model, decode: Decoder)
    ensures var (raw, calls) := AskLlm(company, passages, reply, decode);
      var first := Strip(reply(company, Context(passages), 0));
      && (calls == 1 <==> SafeParseJson(first, decode).Some?)
      && raw == (if calls == 1 then first else Strip(reply(company, Context(passages), 1)))
  {
    var first := Strip(reply(company, Context(passages), 0));
    if SafeParseJson(first, decode).Some? {
      assert AskLlm(company, passages, reply, decode) == (first, 1);
    } else {
      assert AskLlm(company, passages, reply, decode) == (Strip(reply(company, Context(passages), 1)), 2);
    }
  }

  /** A reply that does not parse is the only failure and is returned as `raw`; a parsed reply reports success without `raw`. */
  lemma ConcludeMeaning(company: string, passages: seq<Passage>, raw: string, parsed: Option<Payload>)
    ensures var out := Conclude(company, passages, raw, parsed);
      && (parsed.None? ==> out == Returned(AgentAResult(false, Some(company), [], Some(raw))))
      && (out.Returned? && parsed.Some? ==> out.result.ok && out.result.raw.None? && out.result.selectedCompany == Some(company))
      && (out.Raises? <==> parsed == Some(NotClaims))
  {
  }

  /** Past the early stops, `ok` is false exactly when the repair reply does not parse either; only then is `raw` returned. */
  lemma FinishParseFailure(company: string, passages: seq<Passage>, reply: Model, decode: Decoder)
    ensures var (out, calls) := Finish(company, passages, reply, decode);
      out.Returned? && !out.result.ok ==>
        && calls == 2
        && out.result.selectedCompany == Some(company)
        && out.result.raw == Some(Strip(reply(company, Context(passages), 1)))
        && SafeParseJson(out.result.raw.value, decode).None?
        && out.result.claims == []
    ensures var (out, _) := Finish(company, passages, reply, decode);
      out.Returned? && out.result.ok ==> out.result.raw.None?
    ensures var (out, calls) := Finish(company, passages, reply, decode);
      calls == 2 && SafeParseJson(Strip(reply(company, Context(passages), 1)), decode).None? ==>
        out.Returned? && !out.result.ok
  {
    var first := Strip(reply(company, Context(passages), 0));
    var second := Strip(reply(company, Context(passages), 1));
    var asked := AskLlm(company, passages, reply, decode);
    if SafeParseJson(first, decode).Some? {
      assert asked == (first, 1);
    } else {
      assert asked == (second, 2);
    }
    ConcludeMeaning(company, passages, asked.0, SafeParseJson(asked.0, decode));
  }

  /**
   * `ok` is false exactly on the path where neither reply parses: the result
   * then carries the stripped repair reply as `raw` and no claims, and it is
   * the only path that carries `raw`.
   */
  lemma AgentAParseFailure(results: seq<Passage>, preferred: Option<string>, reply: Model, decode: Decoder)
    ensures var (out, calls) := ExtractClaims(results, preferred, reply, decode);
      out.Returned? && !out.result.ok ==>
        var s := Select(results, preferred);
        && s.Extract? && calls == 2
        && out.result.selectedCompany == Some(s.company)
        && out.result.raw == Some(Strip(reply(s.company, Context(s.passages), 1)))
        && SafeParseJson(out.result.raw.value, decode).None?
        && out.result.claims == []
    ensures var (out, _) := ExtractClaims(results, preferred, reply, decode);
      out.Returned? && out.result.ok ==> out.result.raw.None?
    ensures var (out, calls) := ExtractClaims(results, preferred, reply, decode);
      var s := Select(results, preferred);
      s.Extract? && calls == 2 && SafeParseJson(Strip(reply(s.company, Context(s.passages), 1)), decode).None? ==>
        out.Returned? && !out.result.ok
  {
    var s := Select(results, preferred);
    SelectStops(results, preferred);
    if s.Extract? {
      FinishParseFailure(s.company, s.passages, reply, decode);
    }
  }

  /** Enriching and then de-duplicating under any normalization keeps only excerpts of the given passages. */
  lemma DedupeEnrichedGrounded(cs: seq<Claim>, passages: seq<Passage>, maxLen: int, norm: string -> string)
    ensures forall x, e :: x in Dedupe(EnrichAll(cs, CiteMap(passages), maxLen), norm) && e in x.chunks ==>
              exists p :: p in passages && e == ExcerptOf(p.metaId as int, p, maxLen)
  {
    var enriched := EnrichAll(cs, CiteMap(passages), maxLen);
    DedupeChunksFrom(enriched, norm);
    forall x, e | x in Dedupe(enriched, norm) && e in x.chunks
      ensures exists p :: p in passages && e == ExcerptOf(p.metaId as int, p, maxLen)
    {
      var y :| y in enriched && e in y.chunks;
      var i :| 0 <= i < |enriched| && enriched[i] == y;
      EnrichedExcerptsFrom(cs[i], passages, maxLen);
    }
  }

  /**
   * After post-processing no two claims share a de-duplication key, and
   * every excerpt is the excerpt of one of the passages shown to the model,
   * under that passage's `meta_id`.
   */
  lemma PostProcessedGrounded(cs: seq<Claim>, passages: seq<Passage>)
    ensures NoDuplicates(Keys(PostProcessed(cs, passages), NormalizeWs))
    ensures forall x, e :: x in PostProcessed(cs, passages) && e in x.chunks ==>
              exists p :: p in passages && e == ExcerptOf(p.metaId as int, p, CiteChunkMaxLen)
  {
    DedupeKeys(EnrichAll(cs, CiteMap(passages), CiteChunkMaxLen), NormalizeWs);
    DedupeEnrichedGrounded(cs, passages, CiteChunkMaxLen, NormalizeWs);
  }

  /** A successful result past the early stops holds post-processed claims, or none. */
  lemma FinishClaims(company: string, passages: seq<Passage>, reply: Model, decode: Decoder)
    ensures var out := Finish(company, passages, reply, decode).0;
      out.Returned? && out.result.ok ==>
        out.result.claims == [] || exists cs :: out.result.claims == PostProcessed(cs, passages)
  {
    var asked := AskLlm(company, passages, reply, decode);
    ConcludeClaims(company, passages, asked.0, SafeParseJson(asked.0, decode));
  }

  /** A successful conclusion holds post-processed claims, or none. */
  lemma ConcludeClaims(company: string, passages: seq<Passage>, raw: string, parsed: Option<Payload>)
    ensures var out := Conclude(company, passages, raw, parsed);
      out.Returned? && out.result.ok ==>
        out.result.claims == [] || exists cs :: out.result.claims == PostProcessed(cs, passages)
  {
    if parsed.Some? && parsed.value.ClaimList? {
      assert Conclude(company, passages, raw, parsed).result.claims == PostProcessed(parsed.value.claims, passages);
    }
  }


  /**
   * Every excerpt in a successful result is the excerpt, cut to 160
   * characters plus the ellipsis, of a retrieved passage of the selected
   * company, under that passage's `meta_id`; and no two returned claims
   * share a de-duplication key.
   */
  lemma AgentAClaimsGrounded(results: seq<Passage>, preferred: Option<string>, reply: Model, decode: Decoder)
    ensures var out := ExtractClaims(results, preferred, reply, decode).0;
      out.Returned? && out.result.ok && out.result.selectedCompany.Some? ==>
        && NoDuplicates(Keys(out.result.claims, NormalizeWs))
        && forall x, e :: x in out.result.claims && e in x.chunks ==>
             exists p :: && p in results && p.company == out.result.selectedCompany.value
                         && e == ExcerptOf(p.metaId as int, p, CiteChunkMaxLen)
  {
    var out := ExtractClaims(results, preferred, reply, decode).0;
    var s := Select(results, preferred);
    SelectStops(results, preferred);
    if s.Extract? && out.Returned? && out.result.ok {
      SelectedPassages(results, preferred);
      FinishReportsCompany(s.company, s.passages, reply, decode);
      FinishClaims(s.company, s.passages, reply, decode);
      if out.result.claims != [] {
        var cs :| out.result.claims == PostProcessed(cs, s.passages);
        PostProcessedGrounded(cs, s.passages);
      }
    }
  }

  /** The passages shown to the model are retrieved passages of the selected company. */
  lemma SelectedPassages(results: seq<Passage>, preferred: Option<string>)
    requires Select(results, preferred).Extract?
    ensures var s := Select(results, preferred);
      forall q :: q in s.passages ==> q in results && q.company == s.company
  {
    if Truthy(preferred) {
      var filtered := FilterMatching(results, preferred.value);
      PickPassages(filtered, ChooseCompany(Ranking(filtered, CompanyTopN), preferred), preferred);
      FilterMatchingMeaning(results, preferred.value);
    } else {
      PickPassages(results, ChooseCompany(Ranking(results, CompanyTopN), None), None);
    }
  }
}
