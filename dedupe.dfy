/**
 * `dedupe_claims`: claims that agree on company, whitespace-normalized
 * text, topic and metric are merged into the first of them, which collects
 * the union of their citations (as sorted text) and all their excerpts.
 */
module ClaimDedupe {
  import opened Wrappers
  import opened PySeq
  import opened Text
  import opened StrOrder
  import opened Evidence

  /** The identity of a claim for de-duplication. */
  datatype ClaimKey = ClaimKey(company: string, text: string, topic: string, metric: string)

  /**
   * The key of a claim, with the text put through `norm`. The pipeline
   * uses `NormalizeWs` (see `DedupeClaims`); the results below hold for any
   * text normalization.
   */
  function Key(c: Claim, norm: string -> string): ClaimKey {
    ClaimKey(c.company, norm(c.claimText), c.topic, c.metric)
  }

  function Keys(cs: seq<Claim>, norm: string -> string): (ks: seq<ClaimKey>)
    ensures |ks| == |cs| && forall i :: 0 <= i < |cs| ==> ks[i] == Key(cs[i], norm)
  {
    seq(|cs|, i requires 0 <= i < |cs| => Key(cs[i], norm))
  }

  /** `[str(x) for x in cites]`. */
  function CiteStrs(cites: seq<Cite>): (r: seq<string>)
    ensures |r| == |cites| && forall i :: 0 <= i < |cites| ==> r[i] == CiteToStr(cites[i])
  {
    seq(|cites|, i requires 0 <= i < |cites| => CiteToStr(cites[i]))
  }

  /** A list of strings stored back as citations. */
  function AsText(ss: seq<string>): (r: seq<Cite>)
    ensures |r| == |ss| && forall i :: 0 <= i < |ss| ==> r[i] == CiteText(ss[i])
  {
    seq(|ss|, i requires 0 <= i < |ss| => CiteText(ss[i]))
  }

  lemma CiteStrsAsText(ss: seq<string>)
    ensures CiteStrs(AsText(ss)) == ss
  {
  }

  /** The merged citations: `sorted(set(cites_old + cites_new))`. */
  function MergeCites(older: seq<Cite>, newer: seq<Cite>): seq<Cite> {
    AsText(SortedUnique(CiteStrs(older) + CiteStrs(newer)))
  }

  /** `existing` after absorbing the duplicate `c`. */
  function Merge(existing: Claim, c: Claim): Claim {
    existing.(citations := MergeCites(existing.citations, c.citations), chunks := existing.chunks + c.chunks)
  }

  /** Merging keeps the key, and with it every field but citations and excerpts. */
  lemma MergeKeepsKey(existing: Claim, c: Claim, norm: string -> string)
    ensures Key(Merge(existing, c), norm) == Key(existing, norm)
    ensures Merge(existing, c).(citations := existing.citations, chunks := existing.chunks) == existing
  {
  }

  /** The merged citations are strictly sorted text holding exactly the citations of both, as text. */
  lemma MergeCitesMeaning(older: seq<Cite>, newer: seq<Cite>)
    ensures var m := CiteStrs(MergeCites(older, newer));
      && StrictlySorted(m)
      && forall s :: s in m <==> s in CiteStrs(older) || s in CiteStrs(newer)
  {
    CiteStrsAsText(SortedUnique(CiteStrs(older) + CiteStrs(newer)));
  }

  /** Position of the first claim with key `k`. */
  function FindKey(d: seq<Claim>, k: ClaimKey, norm: string -> string): (r: Option<nat>)
    ensures r.None? <==> k !in Keys(d, norm)
    ensures r.Some? ==> r.value < |d| && Key(d[r.value], norm) == k && k !in Keys(d[..r.value], norm)
  {
    if k in Keys(d, norm) then Some(IndexOf(Keys(d, norm), k)) else None
  }

  /** What `dedupe_claims` returns, claim by claim. */
  function Dedupe(cs: seq<Claim>, norm: string -> string): seq<Claim> {
    if cs == [] then []
    else
      var d, c := Dedupe(cs[..|cs| - 1], norm), cs[|cs| - 1];
      match FindKey(d, Key(c, norm), norm)
      case None => d + [c]
      case Some(i) => d[i := Merge(d[i], c)]
  }

  lemma KeysUpdate(d: seq<Claim>, i: nat, c: Claim, norm: string -> string)
    requires i < |d|
    ensures Keys(d[i := Merge(d[i], c)], norm) == Keys(d, norm)
  {
    MergeKeepsKey(d[i], c, norm);
  }

  lemma KeysAppend(d: seq<Claim>, c: Claim, norm: string -> string)
    ensures Keys(d + [c], norm) == Keys(d, norm) + [Key(c, norm)]
  {
  }

  /** The result has one claim per distinct key, in the order in which the keys first occur. */
  lemma {:induction false} DedupeKeys(cs: seq<Claim>, norm: string -> string)
    ensures Keys(Dedupe(cs, norm), norm) == Distinct(Keys(cs, norm))
  {
    if cs != [] {
      var p, c := cs[..|cs| - 1], cs[|cs| - 1];
      assert cs == p + [c];
      DedupeKeys(p, norm);
      var d, k := Dedupe(p, norm), Key(c, norm);
      DedupeSnoc(p, c, norm);
      KeysAppend(p, c, norm);
      DistinctAppend(Keys(p, norm), k);
      DistinctMembership(Keys(p, norm), k);
      match FindKey(d, k, norm)
      case None =>
        KeysAppend(d, c, norm);
        assert Dedupe(cs, norm) == d + [c];
        assert k !in Keys(p, norm);
      case Some(i) =>
        KeysUpdate(d, i, c, norm);
        assert Dedupe(cs, norm) == d[i := Merge(d[i], c)];
        assert k in Keys(p, norm);
    }
  }

  lemma DedupeSnoc(p: seq<Claim>, c: Claim, norm: string -> string)
    ensures Dedupe(p + [c], norm) ==
      var d := Dedupe(p, norm);
      match FindKey(d, Key(c, norm), norm)
      case None => d + [c]
      case Some(i) => d[i := Merge(d[i], c)]
  {
    assert (p + [c])[..|p|] == p;
  }

  /** `seen` maps every key of `result` to the position of its claim. */
  ghost predicate SeenIndex(result: seq<Claim>, seen: map<ClaimKey, nat>, norm: string -> string) {
    && (forall k :: k in seen <==> k in Keys(result, norm))
    && (forall k :: k in seen ==> seen[k] < |result| && Key(result[seen[k]], norm) == k)
  }

  lemma SeenMerge(result: seq<Claim>, seen: map<ClaimKey, nat>, c: Claim, norm: string -> string)
    requires SeenIndex(result, seen, norm) && NoDuplicates(Keys(result, norm))
    requires Key(c, norm) in seen
    ensures var j := seen[Key(c, norm)];
      && FindKey(result, Key(c, norm), norm) == Some(j)
      && SeenIndex(result[j := Merge(result[j], c)], seen, norm)
  {
    var key := Key(c, norm);
    var j := seen[key];
    var f := FindKey(result, key, norm).value;
    assert Keys(result, norm)[f] == Keys(result, norm)[j];
    KeysUpdate(result, j, c, norm);
    MergeKeepsKey(result[j], c, norm);
    var after := result[j := Merge(result[j], c)];
    assert forall k :: k in seen ==> Key(after[seen[k]], norm) == Key(result[seen[k]], norm);
  }

  lemma SeenAppend(result: seq<Claim>, seen: map<ClaimKey, nat>, c: Claim, norm: string -> string)
    requires SeenIndex(result, seen, norm)
    requires Key(c, norm) !in seen
    ensures FindKey(result, Key(c, norm), norm).None?
    ensures SeenIndex(result + [c], seen[Key(c, norm) := |result|], norm)
  {
    KeysAppend(result, c, norm);
    var after := result + [c];
    assert forall k :: k in seen ==> after[seen[k]] == result[seen[k]];
  }

  /** One pass of the loop: merging into the remembered position, or appending and remembering it, extends the result and keeps `seen` exact. */
  lemma SeenStep(claims: seq<Claim>, i: nat, result: seq<Claim>, seen: map<ClaimKey, nat>, norm: string -> string)
    requires i < |claims|
    requires result == Dedupe(claims[..i], norm) && SeenIndex(result, seen, norm)
    ensures var c := claims[i]; Key(c, norm) in seen ==> var j := seen[Key(c, norm)];
      && j < |result|
      && result[j := Merge(result[j], c)] == Dedupe(claims[..i + 1], norm)
      && SeenIndex(result[j := Merge(result[j], c)], seen, norm)
    ensures var c := claims[i]; Key(c, norm) !in seen ==>
      && result + [c] == Dedupe(claims[..i + 1], norm)
      && SeenIndex(result + [c], seen[Key(c, norm) := |result|], norm)
  {
    var done, c := claims[..i], claims[i];
    assert claims[..i + 1] == done + [c];
    DedupeSnoc(done, c, norm);
    DedupeKeys(done, norm);
    if Key(c, norm) in seen {
      SeenMerge(result, seen, c, norm);
    } else {
      SeenAppend(result, seen, c, norm);
    }
  }

  /**
   * `dedupe_claims`: one pass, remembering where each key's claim sits in
   * the result. The caller passes the text normalization (`NormalizeWs`).
   */
  method DedupeClaims(claims: seq<Claim>, norm: string -> string) returns (result: seq<Claim>)
    ensures result == Dedupe(claims, norm)
  {
    var seen: map<ClaimKey, nat> := map[];
    result := [];
    for i := 0 to |claims|
      invariant result == Dedupe(claims[..i], norm)
      invariant SeenIndex(result, seen, norm)
    {
      var c := claims[i];
      var key := Key(c, norm);
      SeenStep(claims, i, result, seen, norm);
      if key in seen {
        var j := seen[key];
        result := result[j := Merge(result[j], c)];
      } else {
        seen := seen[key := |result|];
        result := result + [c];
      }
    }
    assert claims[..|claims|] == claims;
  }

  /** The claims of `cs` with key `k`, in order. */
  function Group(cs: seq<Claim>, k: ClaimKey, norm: string -> string): seq<Claim> {
    if cs == [] then []
    else Group(cs[..|cs| - 1], k, norm) + (if Key(cs[|cs| - 1], norm) == k then [cs[|cs| - 1]] else [])
  }

  /** All excerpts of a group, in order. */
  function AllChunks(g: seq<Claim>): seq<Excerpt> {
    if g == [] then [] else AllChunks(g[..|g| - 1]) + g[|g| - 1].chunks
  }

  /** All citations of a group, as text, in order. */
  function AllCiteStrs(g: seq<Claim>): seq<string> {
    if g == [] then [] else AllCiteStrs(g[..|g| - 1]) + CiteStrs(g[|g| - 1].citations)
  }

  lemma {:induction false} GroupAbsent(cs: seq<Claim>, k: ClaimKey, norm: string -> string)
    requires k !in Keys(cs, norm)
    ensures Group(cs, k, norm) == []
  {
    if cs != [] {
      var p := cs[..|cs| - 1];
      assert Keys(cs, norm)[|cs| - 1] == Key(cs[|cs| - 1], norm);
      assert forall j :: 0 <= j < |p| ==> Keys(p, norm)[j] == Keys(cs, norm)[j];
      GroupAbsent(p, k, norm);
    }
  }

  lemma GroupAppend(p: seq<Claim>, c: Claim, k: ClaimKey, norm: string -> string)
    ensures Group(p + [c], k, norm) == Group(p, k, norm) + (if Key(c, norm) == k then [c] else [])
  {
    assert (p + [c])[..|p|] == p;
  }

  lemma LastOfGroup(g: seq<Claim>, c: Claim)
    ensures AllChunks(g + [c]) == AllChunks(g) + c.chunks
    ensures AllCiteStrs(g + [c]) == AllCiteStrs(g) + CiteStrs(c.citations)
  {
    assert (g + [c])[..|g|] == g;
  }

  lemma SingletonGroup(c: Claim)
    ensures AllChunks([c]) == c.chunks
    ensures AllCiteStrs([c]) == CiteStrs(c.citations)
  {
    assert [c][..0] == [];
  }

  /** The claim `d[j]` stands for its group exactly as the group says. */
  predicate Represents(e: Claim, g: seq<Claim>) {
    && g != []
    && e.(citations := g[0].citations, chunks := g[0].chunks) == g[0]
    && e.chunks == AllChunks(g)
    && (|g| == 1 ==> e.citations == g[0].citations)
    && (|g| >= 2 ==> e.citations == AsText(SortedUnique(AllCiteStrs(g))))
  }

  /** Absorbing one more claim of the group keeps the representation. */
  lemma RepresentsMerge(e: Claim, g: seq<Claim>, c: Claim)
    requires Represents(e, g)
    ensures Represents(Merge(e, c), g + [c])
  {
    var g' := g + [c];
    LastOfGroup(g, c);
    assert g'[0] == g[0];
    var strs := CiteStrs(e.citations);
    if |g| == 1 {
      SingletonGroup(g[0]);
      assert g == [g[0]];
    } else {
      CiteStrsAsText(SortedUnique(AllCiteStrs(g)));
      var a := SortedUnique(SortedUnique(AllCiteStrs(g)) + CiteStrs(c.citations));
      var b := SortedUnique(AllCiteStrs(g) + CiteStrs(c.citations));
      StrictlySortedUnique(a, b);
    }
  }

  /**
   * Each result claim represents the group of input claims with its key:
   * it has the first one's company, text, topic, year, metric and
   * certainty; all the group's excerpts in order; its own citations if it
   * had no duplicate, and otherwise the sorted, duplicate-free text of all
   * the group's citations.
   */
  lemma {:induction false} DedupeGroups(cs: seq<Claim>, j: nat, norm: string -> string)
    requires j < |Dedupe(cs, norm)|
    ensures Represents(Dedupe(cs, norm)[j], Group(cs, Key(Dedupe(cs, norm)[j], norm), norm))
  {
    var p, c := cs[..|cs| - 1], cs[|cs| - 1];
    assert cs == p + [c];
    DedupeSnoc(p, c, norm);
    var d := Dedupe(p, norm);
    var e := Dedupe(cs, norm)[j];
    var k := Key(e, norm);
    GroupAppend(p, c, k, norm);
    DedupeKeys(p, norm);
    match FindKey(d, Key(c, norm), norm)
    case None =>
      if j < |d| {
        DedupeGroups(p, j, norm);
        assert e == d[j];
        assert Keys(d, norm)[j] == k;
        assert Group(cs, k, norm) == Group(p, k, norm) + [];
        assert Group(p, k, norm) + [] == Group(p, k, norm);
        assert Represents(e, Group(p, k, norm));
      } else {
        DistinctMembership(Keys(p, norm), Key(c, norm));
        GroupAbsent(p, Key(c, norm), norm);
        SingletonGroup(c);
        assert e == c;
        assert Group(cs, k, norm) == [] + [c];
        assert [] + [c] == [c];
        assert Represents(c, [c]);
      }
    case Some(i) =>
      if j != i {
        DedupeGroups(p, j, norm);
        assert e == d[j];
        assert Keys(d, norm)[j] == k && Keys(d, norm)[i] == Key(c, norm);
        assert Group(cs, k, norm) == Group(p, k, norm) + [];
        assert Group(p, k, norm) + [] == Group(p, k, norm);
        assert Represents(e, Group(p, k, norm));
      } else {
        DedupeGroups(p, i, norm);
        MergeKeepsKey(d[i], c, norm);
        RepresentsMerge(d[i], Group(p, k, norm), c);
        assert e == Merge(d[i], c);
        assert k == Key(c, norm);
      }
  }

  /** Claims whose keys are already distinct pass through unchanged. */
  lemma {:induction false} DedupeOfDistinctKeys(cs: seq<Claim>, norm: string -> string)
    requires NoDuplicates(Keys(cs, norm))
    ensures Dedupe(cs, norm) == cs
  {
    if cs != [] {
      var p, c := cs[..|cs| - 1], cs[|cs| - 1];
      assert cs == p + [c];
      var kp, k := Keys(p, norm), Key(c, norm);
      KeysAppend(p, c, norm);
      assert Keys(cs, norm) == kp + [k];
      assert NoDuplicates(kp) by {
        assert forall a :: 0 <= a < |kp| ==> kp[a] == (kp + [k])[a];
      }
      assert k !in kp by {
        assert forall a :: 0 <= a < |kp| ==> kp[a] == (kp + [k])[a] && (kp + [k])[|kp|] == k;
      }
      DedupeOfDistinctKeys(p, norm);
      DedupeSnoc(p, c, norm);
      assert FindKey(p, k, norm).None?;
    }
  }

  /** De-duplicating twice is the same as once. */
  lemma DedupeIdempotent(cs: seq<Claim>, norm: string -> string)
    ensures Dedupe(Dedupe(cs, norm), norm) == Dedupe(cs, norm)
  {
    DedupeKeys(cs, norm);
    DedupeOfDistinctKeys(Dedupe(cs, norm), norm);
  }

  lemma {:induction false} GroupMembers(cs: seq<Claim>, k: ClaimKey, norm: string -> string)
    ensures forall y :: y in Group(cs, k, norm) ==> y in cs
  {
    if cs != [] {
      var p := cs[..|cs| - 1];
      GroupMembers(p, k, norm);
      assert forall y :: y in p ==> y in cs;
    }
  }

  lemma {:induction false} AllChunksMembers(g: seq<Claim>)
    ensures forall e :: e in AllChunks(g) ==> exists y :: y in g && e in y.chunks
  {
    if g != [] {
      var p := g[..|g| - 1];
      AllChunksMembers(p);
      assert forall y :: y in p ==> y in g;
      assert g[|g| - 1] in g;
    }
  }

  /** De-duplication invents no excerpt: each one comes from some input claim. */
  lemma DedupeChunksFrom(cs: seq<Claim>, norm: string -> string)
    ensures forall x, e :: x in Dedupe(cs, norm) && e in x.chunks ==> exists y :: y in cs && e in y.chunks
  {
    var d := Dedupe(cs, norm);
    forall x, e | x in d && e in x.chunks ensures exists y :: y in cs && e in y.chunks {
      var j :| 0 <= j < |d| && d[j] == x;
      DedupeGroups(cs, j, norm);
      var g := Group(cs, Key(x, norm), norm);
      AllChunksMembers(g);
      GroupMembers(cs, Key(x, norm), norm);
      var y :| y in g && e in y.chunks;
    }
  }
}
