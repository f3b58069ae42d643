/**
 * The records that flow through agent A: retrieved passages, the citation
 * values a model writes into `source_citations`, the excerpt records the
 * enricher attaches, and claims.
 */
module Evidence {
  import opened Wrappers
  import Numbers

  /**
   * One retrieval hit: `meta_id` is the row of the metadata table (the
   * retriever skips negative ids), `score` the similarity. Year and page are
   * carried as the text they are shown as.
   */
  datatype Passage = Passage(metaId: nat, score: real, company: string, year: string, page: string, chunk: string)

  /** The score a passage is ranked by. */
  function PassageScore(p: Passage): real { p.score }

  /**
   * A value found in a claim's `source_citations`: a JSON integer, a JSON
   * string, or any other JSON value (null, list, object), kept as its
   * Python `str()` text.
   */
  datatype Cite = CiteInt(n: int) | CiteText(s: string) | CiteOther(shown: string)

  /** Python's `int(c)`: integers convert, strings are parsed, everything else raises. */
  function CiteToInt(c: Cite): Option<int> {
    match c
    case CiteInt(n) => Some(n)
    case CiteText(s) => Numbers.ParseInt(s)
    case CiteOther(_) => None
  }

  /** Python's `str(c)`. */
  function CiteToStr(c: Cite): string {
    match c
    case CiteInt(n) => Numbers.IntToString(n)
    case CiteText(s) => s
    case CiteOther(shown) => shown
  }

  /** An entry of `source_chunks`: a passage's metadata and a truncated excerpt of its text. */
  datatype Excerpt = Excerpt(metaId: Option<int>, company: string, year: string, page: string, score: real, chunk: string)

  /**
   * One extracted commitment. Fields the model leaves out read as the
   * defaults the code uses: empty text, no target year, no citations and
   * no excerpts.
   */
  datatype Claim = Claim(
    company: string,
    claimText: string,
    topic: string,
    targetYear: Option<int>,
    metric: string,
    certainty: string,
    citations: seq<Cite>,
    chunks: seq<Excerpt>)
}
