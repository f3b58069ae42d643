/**
 * Company disambiguation and passage selection in agent A:
 * `match_company_name`, `choose_company`, `rank_companies` and
 * `pick_company_passages`.
 */
module Company {
  import opened Wrappers
  import opened PySeq
  import opened Text
  import opened StableSort
  import opened Evidence

  /** The name form compared by `match_company_name`: all whitespace removed, then lower-cased. */
  function NormName(s: string): string {
    AsciiLower(NonSpace(s))
  }

  /** `match_company_name`: both normalized names non-empty and one contained in the other. */
  function MatchCompanyName(name: string, preferred: string): bool {
    var n1, n2 := NormName(name), NormName(preferred);
    if n1 == [] || n2 == [] then false else Contains(n1, n2) || Contains(n2, n1)
  }

  /** The names match exactly when, after normalization, both are non-empty and one occurs in the other at some position. */
  lemma MatchCompanyNameMeaning(name: string, preferred: string)
    ensures MatchCompanyName(name, preferred) <==> var n1, n2 := NormName(name), NormName(preferred);
      && n1 != [] && n2 != []
      && ((exists i: nat :: OccursAt(n1, n2, i)) || (exists i: nat :: OccursAt(n2, n1, i)))
  {
  }

  /** The test is symmetric in its two names. */
  lemma MatchCompanyNameSymmetric(a: string, b: string)
    ensures MatchCompanyName(a, b) == MatchCompanyName(b, a)
  {
  }

  /** A name that is empty once whitespace is removed matches nothing. */
  lemma MatchCompanyNameEmpty(a: string, b: string)
    requires NonSpace(a) == [] || NonSpace(b) == []
    ensures !MatchCompanyName(a, b)
  {
  }

  /** A name without whitespace and without upper-case ASCII letters is its own normal form. */
  lemma {:induction false} NormNamePlain(s: string)
    requires forall i :: 0 <= i < |s| ==> !IsSpace(s[i]) && !('A' <= s[i] <= 'Z')
    ensures NormName(s) == s
  {
    NonSpaceNoSpace(s);
  }

  lemma {:induction false} NonSpaceNoSpace(s: string)
    requires forall i :: 0 <= i < |s| ==> !IsSpace(s[i])
    ensures NonSpace(s) == s
  {
    if s != [] {
      NonSpaceNoSpace(s[1..]);
    }
  }

  /** For names already in normal form, matching is plain containment either way. */
  lemma MatchPlainNames(a: string, b: string)
    requires NormName(a) == a && NormName(b) == b
    ensures MatchCompanyName(a, b) <==> a != [] && b != [] && (Contains(a, b) || Contains(b, a))
  {
  }

  /** Matching holds as soon as one normalized name contains the other. */
  lemma MatchOfContains(a: string, b: string)
    requires NormName(a) != [] && NormName(b) != [] && Contains(NormName(a), NormName(b))
    ensures MatchCompanyName(a, b)
  {
  }

  lemma ContainsPrefix(n1: string, n2: string)
    requires |n2| <= |n1| && n1[..|n2|] == n2
    ensures Contains(n1, n2)
  {
    assert OccursAt(n1, n2, 0);
  }

  lemma NormNamePrefix(base: string, extra: string)
    ensures |NormName(base)| <= |NormName(base + extra)|
    ensures NormName(base + extra)[..|NormName(base)|] == NormName(base)
  {
    NonSpaceConcat(base, extra);
    assert NormName(base + extra) == AsciiLower(NonSpace(base) + NonSpace(extra));
  }

  /** A name extended by anything (a year, a report suffix) matches the bare name. */
  lemma MatchCompanyNameExtended(base: string, extra: string)
    requires NonSpace(base) != []
    ensures MatchCompanyName(base + extra, base)
  {
    NormNamePrefix(base, extra);
    ContainsPrefix(NormName(base + extra), NormName(base));
    MatchOfContains(base + extra, base);
  }

  /** Names with the same non-empty normal form match. */
  lemma MatchSameNormName(a: string, b: string)
    requires NormName(a) == NormName(b) && NormName(a) != []
    ensures MatchCompanyName(a, b)
  {
    assert OccursAt(NormName(a), NormName(b), 0);
  }

  lemma NormNameTsmc()
    ensures NormName("TSMC") == "tsmc" && NormName("tsmc") == "tsmc"
  {
    NonSpaceNoSpace("TSMC");
    assert AsciiLower("TSMC") == "tsmc";
    NormNamePlain("tsmc");
  }

  /** ASCII case does not matter. */
  lemma MatchCompanyNameIgnoresCase()
    ensures MatchCompanyName("TSMC", "tsmc")
  {
    NormNameTsmc();
    MatchSameNormName("TSMC", "tsmc");
  }

  lemma NotContainsTsmcFoxconn()
    ensures !Contains("台積電", "鴻海") && !Contains("鴻海", "台積電")
  {
    forall i: nat ensures !OccursAt("台積電", "鴻海", i) {
      if i + 2 <= 3 {
        assert "台積電"[i..i + 2][0] == "台積電"[i];
      }
    }
  }

  /** Two different company names do not match. */
  lemma MatchCompanyNameDifferent()
    ensures !MatchCompanyName("台積電", "鴻海")
  {
    NormNamePlain("台積電");
    NormNamePlain("鴻海");
    NotContainsTsmcFoxconn();
    MatchPlainNames("台積電", "鴻海");
  }

  /** Python's truth value of an optional name: present and non-empty. */
  predicate Truthy(s: Option<string>) {
    s.Some? && s.value != ""
  }

  /** The first ranked name that matches `preferred`, scanning in ranking order. */
  function FirstMatch(ranked: seq<(string, real)>, preferred: string): Option<string> {
    if ranked == [] then None
    else if MatchCompanyName(ranked[0].0, preferred) then Some(ranked[0].0)
    else FirstMatch(ranked[1..], preferred)
  }

  lemma {:induction false} FirstMatchMeaning(ranked: seq<(string, real)>, preferred: string)
    ensures var r := FirstMatch(ranked, preferred);
      && (r.None? <==> forall i :: 0 <= i < |ranked| ==> !MatchCompanyName(ranked[i].0, preferred))
      && (r.Some? ==> exists i :: 0 <= i < |ranked| && ranked[i].0 == r.value
                               && MatchCompanyName(r.value, preferred)
                               && (forall j :: 0 <= j < i ==> !MatchCompanyName(ranked[j].0, preferred)))
  {
    if ranked != [] && !MatchCompanyName(ranked[0].0, preferred) {
      FirstMatchMeaning(ranked[1..], preferred);
      assert forall i :: 1 <= i < |ranked| ==> ranked[i] == ranked[1..][i - 1];
      var r := FirstMatch(ranked[1..], preferred);
      if r.Some? {
        var i :| 0 <= i < |ranked[1..]| && ranked[1..][i].0 == r.value
          && MatchCompanyName(r.value, preferred)
          && (forall j :: 0 <= j < i ==> !MatchCompanyName(ranked[1..][j].0, preferred));
        assert ranked[i + 1].0 == r.value;
      }
    }
  }

  /** `choose_company`. */
  function ChooseCompany(ranked: seq<(string, real)>, preferred: Option<string>): Option<string> {
    if ranked == [] then None
    else if Truthy(preferred) then FirstMatch(ranked, preferred.value)
    else Some(ranked[0].0)
  }

  /**
   * Nothing from an empty ranking; with a preference, the first ranked name
   * that matches it, or nothing when none does (never another company);
   * without one, the top-ranked name.
   */
  lemma ChooseCompanyMeaning(ranked: seq<(string, real)>, preferred: Option<string>)
    ensures var r := ChooseCompany(ranked, preferred);
      && (ranked == [] ==> r.None?)
      && (ranked != [] && !Truthy(preferred) ==> r == Some(ranked[0].0))
      && (Truthy(preferred) ==>
            (r.None? <==> forall i :: 0 <= i < |ranked| ==> !MatchCompanyName(ranked[i].0, preferred.value)))
      && (Truthy(preferred) && r.Some? ==>
            exists i :: 0 <= i < |ranked| && ranked[i].0 == r.value
                     && MatchCompanyName(r.value, preferred.value)
                     && (forall j :: 0 <= j < i ==> !MatchCompanyName(ranked[j].0, preferred.value)))
  {
    if Truthy(preferred) {
      FirstMatchMeaning(ranked, preferred.value);
    }
  }

  /** The company names with a truthy (non-empty) value, in retrieval order. */
  function Companies(rs: seq<Passage>): (cs: seq<string>)
    ensures forall i :: 0 <= i < |cs| ==> cs[i] != ""
  {
    if rs == [] then []
    else
      var c := rs[|rs| - 1].company;
      Companies(rs[..|rs| - 1]) + (if c != "" then [c] else [])
  }

  /** The sum of the scores of the passages attributed to `c`. */
  function Total(rs: seq<Passage>, c: string): real {
    if rs == [] then 0.0
    else
      var p := rs[|rs| - 1];
      Total(rs[..|rs| - 1], c) + (if p.company == c then p.score else 0.0)
  }

  /** The keys of the `defaultdict` that `rank_companies` fills: each company once, in first-seen order. */
  function Names(rs: seq<Passage>): seq<string> {
    Distinct(Companies(rs))
  }

  /** `agg.items()`: each company with its aggregate score, in first-seen order. */
  function Aggregate(rs: seq<Passage>): (agg: seq<(string, real)>)
    ensures |agg| == |Names(rs)|
    ensures forall i :: 0 <= i < |agg| ==> agg[i] == (Names(rs)[i], Total(rs, Names(rs)[i]))
  {
    var names := Names(rs);
    seq(|names|, i requires 0 <= i < |names| => (names[i], Total(rs, names[i])))
  }

  function RankScore(e: (string, real)): real { e.1 }

  /** What `rank_companies(results, topn)` returns. */
  function Ranking(rs: seq<Passage>, topn: int): seq<(string, real)> {
    Take(SortDesc(Aggregate(rs), RankScore), topn)
  }

  lemma CompaniesAppend(rs: seq<Passage>, p: Passage)
    ensures Companies(rs + [p]) == Companies(rs) + (if p.company != "" then [p.company] else [])
    ensures forall c :: Total(rs + [p], c) == Total(rs, c) + (if p.company == c then p.score else 0.0)
  {
    assert (rs + [p])[..|rs|] == rs;
  }

  lemma NamesAppend(rs: seq<Passage>, p: Passage)
    ensures Names(rs + [p]) ==
      if p.company == "" || p.company in Names(rs) then Names(rs) else Names(rs) + [p.company]
  {
    CompaniesAppend(rs, p);
    if p.company != "" {
      assert Companies(rs + [p]) == Companies(rs) + [p.company];
      DistinctAppend(Companies(rs), p.company);
      DistinctMembership(Companies(rs), p.company);
    } else {
      assert Companies(rs + [p]) == Companies(rs);
    }
  }

  /** One iteration of the accumulation loop of `rank_companies` keeps the dict equal to the totals so far. */
  lemma RankStep(rs: seq<Passage>, p: Passage, next: seq<Passage>,
                 agg: map<string, real>, order: seq<string>, agg': map<string, real>, order': seq<string>)
    requires next == rs + [p]
    requires order == Names(rs)
    requires forall c :: c in agg <==> c in order
    requires forall c :: c in agg ==> agg[c] == Total(rs, c)
    requires agg' == if p.company == "" then agg
                     else if p.company in agg then agg[p.company := agg[p.company] + p.score]
                     else agg[p.company := 0.0 + p.score]
    requires order' == if p.company == "" || p.company in agg then order else order + [p.company]
    ensures order' == Names(next)
    ensures forall c :: c in agg' <==> c in order'
    ensures forall c :: c in agg' ==> agg'[c] == Total(next, c)
  {
    if p.company == "" {
      SkipStep(rs, p, next, agg, order);
    } else if p.company in agg {
      AddStep(rs, p, next, agg, order);
    } else {
      NewStep(rs, p, next, agg, order);
    }
  }

  /** A passage without a company leaves the dict as it is. */
  lemma SkipStep(rs: seq<Passage>, p: Passage, next: seq<Passage>, agg: map<string, real>, order: seq<string>)
    requires next == rs + [p] && p.company == ""
    requires order == Names(rs)
    requires forall c :: c in agg ==> c in order && agg[c] == Total(rs, c)
    ensures order == Names(next)
    ensures forall c :: c in agg ==> agg[c] == Total(next, c)
  {
    NamesAppend(rs, p);
    CompaniesAppend(rs, p);
    NamesNonEmpty(rs);
  }

  /** A passage of a company already in the dict adds its score to that company's entry. */
  lemma AddStep(rs: seq<Passage>, p: Passage, next: seq<Passage>, agg: map<string, real>, order: seq<string>)
    requires next == rs + [p] && p.company in agg && p.company != ""
    requires order == Names(rs)
    requires forall c :: c in agg <==> c in order
    requires forall c :: c in agg ==> agg[c] == Total(rs, c)
    ensures order == Names(next)
    ensures var agg' := agg[p.company := agg[p.company] + p.score];
      forall c :: c in agg' ==> agg'[c] == Total(next, c)
  {
    NamesAppend(rs, p);
    CompaniesAppend(rs, p);
  }

  /** A passage of a company not yet in the dict opens its entry and appends the name. */
  lemma NewStep(rs: seq<Passage>, p: Passage, next: seq<Passage>, agg: map<string, real>, order: seq<string>)
    requires next == rs + [p] && p.company !in agg && p.company != ""
    requires order == Names(rs)
    requires forall c :: c in agg <==> c in order
    requires forall c :: c in agg ==> agg[c] == Total(rs, c)
    ensures order + [p.company] == Names(next)
    ensures var agg' := agg[p.company := 0.0 + p.score];
      forall c :: c in agg' ==> agg'[c] == Total(next, c)
  {
    NamesAppend(rs, p);
    CompaniesAppend(rs, p);
    DistinctMembership(Companies(rs), p.company);
    TotalAbsent(rs, p.company);
  }

  /** No passage without a company gives a name. */
  lemma NamesNonEmpty(rs: seq<Passage>)
    ensures "" !in Names(rs)
  {
    DistinctMembership(Companies(rs), "");
  }


  /** Listing the finished dict in insertion order gives the aggregate of the passages. */
  lemma ItemsAreAggregate(rs: seq<Passage>, agg: map<string, real>, order: seq<string>, items: seq<(string, real)>)
    requires order == Names(rs)
    requires forall c :: c in agg <==> c in order
    requires forall c :: c in agg ==> agg[c] == Total(rs, c)
    requires |items| == |order| && forall k :: 0 <= k < |order| ==> items[k] == (order[k], agg[order[k]])
    ensures items == Aggregate(rs)
  {
    var a := Aggregate(rs);
    assert |items| == |a|;
    forall k | 0 <= k < |items| ensures items[k] == a[k] {
      assert order[k] in agg;
    }
  }

  /** A company without passages has total zero. */
  lemma {:induction false} TotalAbsent(rs: seq<Passage>, c: string)
    requires c != "" && c !in Companies(rs)
    ensures Total(rs, c) == 0.0
  {
    if rs != [] {
      var q := rs[..|rs| - 1];
      assert Companies(rs) == Companies(q) + (if rs[|rs| - 1].company != "" then [rs[|rs| - 1].company] else []);
      TotalAbsent(q, c);
    }
  }

  /** `rank_companies`: accumulate per-company scores in a dict, then sort it by score, descending, and keep `topn` entries. */
  method RankCompanies(results: seq<Passage>, topn: int) returns (ranked: seq<(string, real)>)
    ensures ranked == Ranking(results, topn)
  {
    var agg: map<string, real> := map[];
    var order: seq<string> := [];
    var i := 0;
    while i < |results|
      invariant 0 <= i <= |results|
      invariant order == Names(results[..i])
      invariant forall c :: c in agg <==> c in order
      invariant forall c :: c in agg ==> agg[c] == Total(results[..i], c)
    {
      var p := results[i];
      ghost var agg0, order0 := agg, order;
      if p.company != "" {
        if p.company in agg {
          agg := agg[p.company := agg[p.company] + p.score];
        } else {
          agg := agg[p.company := 0.0 + p.score];
          order := order + [p.company];
        }
      }
      var next := i + 1;
      RankStep(results[..i], p, results[..next], agg0, order0, agg, order);
      i := next;
    }
    assert results[..i] == results;
    var items := seq(|order|, k requires 0 <= k < |order| => (order[k], agg[order[k]]));
    ItemsAreAggregate(results, agg, order, items);
    ranked := Take(SortDesc(items, RankScore), topn);
  }

  /** The company names of a ranking, in order. */
  function RankedNames(ranked: seq<(string, real)>): (ns: seq<string>)
    ensures |ns| == |ranked| && forall i :: 0 <= i < |ranked| ==> ns[i] == ranked[i].0
  {
    seq(|ranked|, i requires 0 <= i < |ranked| => ranked[i].0)
  }

  /**
   * The ranking lists distinct, non-empty company names, each with the sum of
   * its passages' scores, in non-increasing score order, and at most `topn`
   * of them: exactly `min(topn, number of companies)` for a non-negative
   * `topn`.
   */
  lemma RankingProperties(rs: seq<Passage>, topn: int)
    ensures var r := Ranking(rs, topn);
      && SortedDesc(r, RankScore)
      && NoDuplicates(RankedNames(r))
      && (forall i :: 0 <= i < |r| ==> r[i].0 in Companies(rs) && r[i].1 == Total(rs, r[i].0))
      && (0 <= topn ==> |r| == Min(topn, |Names(rs)|))
  {
    var agg := Aggregate(rs);
    var sorted := SortDesc(agg, RankScore);
    var r := Ranking(rs, topn);
    assert r == sorted[..|r|];
    forall i | 0 <= i < |r| ensures r[i].0 in Companies(rs) && r[i].1 == Total(rs, r[i].0) {
      assert r[i] == sorted[i];
      assert sorted[i] in multiset(agg);
      var k :| 0 <= k < |agg| && agg[k] == sorted[i];
    }
    forall i, j | 0 <= i < j < |r| ensures r[i].0 != r[j].0 {
      EqualNamesInSorted(agg, sorted, i, j);
    }
    assert |sorted| == |agg| by {
      assert |multiset(sorted)| == |multiset(agg)|;
    }
  }

  lemma EqualNamesInSorted(agg: seq<(string, real)>, sorted: seq<(string, real)>, i: nat, j: nat)
    requires NoDuplicates(RankedNames(agg))
    requires multiset(sorted) == multiset(agg)
    requires i < j < |sorted|
    ensures sorted[i].0 != sorted[j].0
  {
    var a, b := sorted[i], sorted[j];
    assert a in multiset(agg) && b in multiset(agg);
    var ka :| 0 <= ka < |agg| && agg[ka] == a;
    var kb :| 0 <= kb < |agg| && agg[kb] == b;
    assert RankedNames(agg)[ka] == a.0 && RankedNames(agg)[kb] == b.0;
    RepeatedCount(sorted, i, j);
    NoDuplicatesCount(agg, a);
  }

  /** Every name in the first-seen list is a company of some passage, and every company appears; ties in the ranking keep that first-seen order. */
  lemma RankingCoversAndStable(rs: seq<Passage>, v: real)
    ensures forall c :: c in Names(rs) <==> c in Companies(rs)
    ensures NoDuplicates(Names(rs))
    ensures WithKey(SortDesc(Aggregate(rs), RankScore), RankScore, v) == WithKey(Aggregate(rs), RankScore, v)
  {
    forall c ensures c in Names(rs) <==> c in Companies(rs) {
      DistinctMembership(Companies(rs), c);
    }
    SortDescStable(Aggregate(rs), RankScore, v);
  }

  /** With `topn` at least the number of companies, every company with a passage is ranked. */
  lemma RankingComplete(rs: seq<Passage>, topn: int, c: string)
    requires topn >= |Names(rs)|
    requires c in Companies(rs)
    ensures c in RankedNames(Ranking(rs, topn))
  {
    var agg := Aggregate(rs);
    var sorted := SortDesc(agg, RankScore);
    DistinctMembership(Companies(rs), c);
    var k :| 0 <= k < |Names(rs)| && Names(rs)[k] == c;
    SortDescMembers(agg, RankScore);
    assert agg[k] in sorted;
    var m :| 0 <= m < |sorted| && sorted[m] == agg[k];
    assert Ranking(rs, topn) == sorted;
    assert RankedNames(sorted)[m] == c;
  }


  /** Every company's total is at most the total at the head of the ranking. */
  lemma RankingTop(rs: seq<Passage>, topn: int, d: string)
    requires d in Companies(rs) && topn > 0
    ensures Ranking(rs, topn) != []
    ensures Total(rs, d) <= Ranking(rs, topn)[0].1
  {
    var agg := Aggregate(rs);
    var sorted := SortDesc(agg, RankScore);
    RankingCoversAndStable(rs, 0.0);
    var k :| 0 <= k < |Names(rs)| && Names(rs)[k] == d;
    assert agg[k] in multiset(sorted);
    var m :| 0 <= m < |sorted| && sorted[m] == agg[k];
    RankingProperties(rs, topn);
    assert Ranking(rs, topn)[0] == sorted[0];
    assert RankScore(sorted[0]) >= RankScore(sorted[m]) || m == 0;
  }

  /**
   * With a positive `topn` the ranking is empty exactly when no passage
   * names a company; otherwise its head is such a company with the
   * greatest total.
   */
  lemma RankingHead(rs: seq<Passage>, topn: int)
    requires topn > 0
    ensures Ranking(rs, topn) == [] <==> Companies(rs) == []
    ensures Companies(rs) != [] ==> var h := Ranking(rs, topn)[0].0;
      && h in Companies(rs) && h != ""
      && forall d :: d in Companies(rs) ==> Total(rs, d) <= Total(rs, h)
  {
    var r := Ranking(rs, topn);
    RankingProperties(rs, topn);
    if Companies(rs) == [] {
      assert Names(rs) == [];
    } else {
      RankingTop(rs, topn, Companies(rs)[0]);
      forall d | d in Companies(rs) ensures Total(rs, d) <= Total(rs, r[0].0) {
        RankingTop(rs, topn, d);
      }
      var h := r[0].0;
      var k :| 0 <= k < |Companies(rs)| && Companies(rs)[k] == h;
    }
  }

  /** The passages attributed to `company`, in retrieval order. */
  function OfCompany(rs: seq<Passage>, company: string): (r: seq<Passage>)
    ensures forall i :: 0 <= i < |r| ==> r[i].company == company
    ensures forall p :: p in rs && p.company == company <==> p in r
  {
    if rs == [] then []
    else (if rs[0].company == company then [rs[0]] else []) + OfCompany(rs[1..], company)
  }

  /** `pick_company_passages`: that company's passages, best score first, at most `limit` of them. */
  function PickCompanyPassages(rs: seq<Passage>, company: string, limit: int): seq<Passage> {
    Take(SortDesc(OfCompany(rs, company), PassageScore), limit)
  }

  /**
   * The picked passages all belong to the company, come best score first,
   * are drawn from the retrieved ones (with multiplicity), number
   * `min(limit, candidates)` for a non-negative `limit`, and no passage of
   * the company that was left out scores higher than one that was kept.
   */
  lemma PickCompanyPassagesProperties(rs: seq<Passage>, company: string, limit: int)
    ensures var r := PickCompanyPassages(rs, company, limit);
      && (forall i :: 0 <= i < |r| ==> r[i].company == company && r[i] in rs)
      && SortedDesc(r, PassageScore)
      && multiset(r) <= multiset(OfCompany(rs, company))
      && (0 <= limit ==> |r| == Min(limit, |OfCompany(rs, company)|))
      && (forall q, i :: q in rs && q.company == company && q !in r && 0 <= i < |r| ==> q.score <= r[i].score)
  {
    var cands := OfCompany(rs, company);
    var sorted := SortDesc(cands, PassageScore);
    var r := PickCompanyPassages(rs, company, limit);
    SortDescLength(cands, PassageScore);
    TopOfRanked(cands, sorted, r);
  }

  /** A prefix of the candidates ranked by score comes from them and beats every candidate it leaves out. */
  lemma TopOfRanked(cands: seq<Passage>, sorted: seq<Passage>, r: seq<Passage>)
    requires SortedDesc(sorted, PassageScore) && multiset(sorted) == multiset(cands)
    requires |r| <= |sorted| && r == sorted[..|r|]
    ensures forall i :: 0 <= i < |r| ==> r[i] in cands
    ensures SortedDesc(r, PassageScore) && multiset(r) <= multiset(cands)
    ensures forall q, i :: q in cands && q !in r && 0 <= i < |r| ==> q.score <= r[i].score
  {
    TopOfSorted(cands, sorted, r, PassageScore);
    forall q, i | q in cands && q !in r && 0 <= i < |r| ensures q.score <= r[i].score {
      assert PassageScore(q) <= PassageScore(r[i]);
    }
  }



}
