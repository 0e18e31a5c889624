/**
 * Semantic search: filter the stored records by category and tags, score
 * each candidate by cosine similarity to the query vector plus keyword
 * overlap, sort by score (highest first, stably) and keep the first `limit`.
 */
module Search {
  import opened Wrappers
  import opened Types
  import Seqs
  import Text
  import opened Embeddings
  import Store

  /** Default number of results. */
  const DefaultLimit := 10

  /** The lower-cased text a keyword is looked up in: the content, a space, then the tags joined by spaces. */
  function SearchableText(m: MemoryRecord): string {
    Text.Lower(m.content + " " + Text.Join(m.tags, " "))
  }

  /** The whitespace-separated tokens of the lower-cased keyword. */
  function Tokens(keyword: string): seq<string> {
    Text.Words(Text.Lower(keyword))
  }

  /** How many of the tokens occur in `text`. */
  function MatchCount(tokens: seq<string>, text: string): (n: nat)
    ensures n <= |tokens|
  {
    if tokens == [] then 0
    else MatchCount(tokens[..|tokens| - 1], text) + (if Text.Contains(text, tokens[|tokens| - 1]) then 1 else 0)
  }

  lemma Ratio(n: real, d: real)
    requires 0.0 <= n <= d && d > 0.0
    ensures 0.0 <= n / d <= 1.0
    ensures n / d == 1.0 <==> n == d
  {
    assert (n / d) * d == n;
  }

  /** `keywordScore`: the fraction of keyword tokens found in the record's text; 0 without tokens. */
  function KeywordScoreOf(m: MemoryRecord, keyword: string): (r: real)
    ensures 0.0 <= r <= 1.0
    ensures Tokens(keyword) == [] ==> r == 0.0
    ensures r == 1.0 <==> Tokens(keyword) != [] && MatchCount(Tokens(keyword), SearchableText(m)) == |Tokens(keyword)|
  {
    var tokens := Tokens(keyword);
    if |tokens| == 0 then 0.0
    else
      var n := MatchCount(tokens, SearchableText(m));
      Ratio(n as real, |tokens| as real);
      n as real / |tokens| as real
  }

  /** The counting loop of `keywordScore`. */
  method KeywordScore(m: MemoryRecord, keyword: string) returns (r: real)
    ensures r == KeywordScoreOf(m, keyword)
  {
    var text := SearchableText(m);
    var tokens := Tokens(keyword);
    if |tokens| == 0 {
      return 0.0;
    }
    var matches := 0;
    var i := 0;
    while i < |tokens|
      invariant 0 <= i <= |tokens|
      invariant matches == MatchCount(tokens[..i], text)
    {
      assert tokens[..i + 1][..i] == tokens[..i];
      if Text.Contains(text, tokens[i]) {
        matches := matches + 1;
      }
      i := i + 1;
    }
    assert tokens[..i] == tokens;
    r := matches as real / |tokens| as real;
  }

  /** A record passes the category filter and holds every requested tag. */
  predicate MatchesSearch(m: MemoryRecord, o: SearchOptions) {
    && (o.category.None? || m.category == o.category.value)
    && (!TagFilterActive(o.tags) || HasAllTags(m, o.tags.value))
  }

  /** The scanned records that pass the category filter, then the tag filter, in scan order. */
  function Candidates(scan: seq<MemoryRecord>, o: SearchOptions): seq<MemoryRecord> {
    var byCategory := if o.category.Some? then Seqs.Filter(scan, (m: MemoryRecord) => m.category == o.category.value) else scan;
    if TagFilterActive(o.tags) then Seqs.Filter(byCategory, (m: MemoryRecord) => HasAllTags(m, o.tags.value)) else byCategory
  }

  /** The combined score: 0.8 times the cosine similarity plus 0.2 times the keyword score. */
  function Score(m: MemoryRecord, queryVector: seq<real>, keyword: string, sqrt: real -> real): real
    requires SqrtLaws(sqrt)
  {
    0.8 * Cosine(queryVector, m.embedding, sqrt) + 0.2 * KeywordScoreOf(m, keyword)
  }

  function Scored(candidates: seq<MemoryRecord>, queryVector: seq<real>, keyword: string, sqrt: real -> real): seq<SearchResult>
    requires SqrtLaws(sqrt)
  {
    seq(|candidates|, i requires 0 <= i < |candidates| => SearchResult(candidates[i], Score(candidates[i], queryVector, keyword, sqrt)))
  }

  function NegScore(r: SearchResult): real {
    -r.score
  }

  /** The candidates' results sorted stably by descending score, cut to the limit as `slice(0, limit)` does. */
  function Ranked(scan: seq<MemoryRecord>, queryVector: seq<real>, keyword: string, o: SearchOptions, sqrt: real -> real): seq<SearchResult>
    requires SqrtLaws(sqrt)
  {
    var scored := Scored(Candidates(scan, o), queryVector, keyword, sqrt);
    Seqs.SliceTo(Seqs.SortBy(scored, NegScore), o.limit.GetOr(DefaultLimit))
  }

  /** The candidates are exactly the scanned records that pass both filters. */
  lemma CandidatesExact(scan: seq<MemoryRecord>, o: SearchOptions)
    ensures forall i :: 0 <= i < |Candidates(scan, o)| ==> Candidates(scan, o)[i] in scan && MatchesSearch(Candidates(scan, o)[i], o)
    ensures forall i :: 0 <= i < |scan| && MatchesSearch(scan[i], o) ==> scan[i] in Candidates(scan, o)
  {
    var byCategory := if o.category.Some? then Seqs.Filter(scan, (m: MemoryRecord) => m.category == o.category.value) else scan;
    assert forall i :: 0 <= i < |byCategory| ==> byCategory[i] in scan && (o.category.None? || byCategory[i].category == o.category.value);
    forall i | 0 <= i < |scan| && MatchesSearch(scan[i], o) ensures scan[i] in Candidates(scan, o) {
      assert scan[i] in byCategory;
      var k :| 0 <= k < |byCategory| && byCategory[k] == scan[i];
    }
  }

  /**
   * What a search returns: no more than the limit and the candidates; a
   * prefix of the sorted candidates; every result a scanned record that
   * passes the filters, with its combined score; scores non-increasing.
   */
  lemma RankedCorrect(scan: seq<MemoryRecord>, queryVector: seq<real>, keyword: string, o: SearchOptions, sqrt: real -> real)
    requires SqrtLaws(sqrt)
    ensures var c := Candidates(scan, o);
            var r := Ranked(scan, queryVector, keyword, o, sqrt);
            && |r| <= |c|
            && (o.limit.GetOr(DefaultLimit) >= 0 ==> |r| <= o.limit.GetOr(DefaultLimit))
            && r <= Seqs.SortBy(Scored(c, queryVector, keyword, sqrt), NegScore)
            && (forall i :: 0 <= i < |r| ==>
                  r[i].memory in scan && MatchesSearch(r[i].memory, o) && r[i].score == Score(r[i].memory, queryVector, keyword, sqrt))
            && (forall i, j :: 0 <= i < j < |r| ==> r[i].score >= r[j].score)
  {
    var c := Candidates(scan, o);
    var scored := Scored(c, queryVector, keyword, sqrt);
    var sorted := Seqs.SortBy(scored, NegScore);
    var r := Ranked(scan, queryVector, keyword, o, sqrt);
    CandidatesExact(scan, o);
    Seqs.SortByCorrect(scored, NegScore);
    forall i | 0 <= i < |r|
      ensures r[i].memory in scan && MatchesSearch(r[i].memory, o) && r[i].score == Score(r[i].memory, queryVector, keyword, sqrt)
    {
      assert r[i] == sorted[i];
      assert sorted[i] in multiset(scored);
      var k :| 0 <= k < |scored| && scored[k] == sorted[i];
      assert c[k] in scan;
    }
    forall i, j | 0 <= i < j < |r| ensures r[i].score >= r[j].score {
      assert r[i] == sorted[i] && r[j] == sorted[j];
      assert NegScore(sorted[i]) <= NegScore(sorted[j]);
    }
  }

  /**
   * The sort is stable: for every score, the results with that score appear
   * in the order their records had among the scanned candidates.
   */
  lemma RankedStable(scan: seq<MemoryRecord>, queryVector: seq<real>, keyword: string, o: SearchOptions, sqrt: real -> real, score: real)
    requires SqrtLaws(sqrt)
    ensures var scored := Scored(Candidates(scan, o), queryVector, keyword, sqrt);
            Seqs.KeyOrderKept(Ranked(scan, queryVector, keyword, o, sqrt), scored, NegScore, -score)
  {
    var scored := Scored(Candidates(scan, o), queryVector, keyword, sqrt);
    Seqs.SortedSliceStable(scored, NegScore, o.limit.GetOr(DefaultLimit), -score);
  }

  /**
   * `semanticSearch`: an empty store answers [] without asking for an
   * embedding; otherwise the query is embedded (a failure aborts the search)
   * and the scanned records are ranked against the query vector, using the
   * keyword option or else the query text as keyword.
   */
  method SemanticSearch(store: Store.MemoryStore, embeddings: EmbeddingsClient, query: string, o: SearchOptions, sqrt: real -> real)
    returns (r: Result<seq<SearchResult>, EmbedError>, ghost scan: seq<MemoryRecord>, ghost queryVector: seq<real>)
    requires store.Valid() && SqrtLaws(sqrt)
    modifies embeddings
    ensures Store.IsScanOf(scan, store.memories)
    ensures scan == [] ==> r == Ok([]) && embeddings.requests == old(embeddings.requests)
    ensures scan != [] && !embeddings.configured ==> r == Err(NotConfigured)
    ensures r.Ok? ==> r.value == Ranked(scan, queryVector, o.keyword.GetOr(query), o, sqrt)
  {
    var all := store.GetAllMemories();
    scan := all;
    queryVector := [];
    if |all| == 0 {
      return Ok([]), scan, queryVector;
    }
    var embedded := embeddings.EmbedText(query);
    if embedded.Err? {
      return Err(embedded.error), scan, queryVector;
    }
    queryVector := embedded.value;
    r := Ok(Ranked(all, embedded.value, o.keyword.GetOr(query), o, sqrt));
  }
}
