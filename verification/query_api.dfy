/** The query API: one request builder per public query method. Each paginated method sends
    its query with the caller's window and one sort key, and returns `Hits.GetSources` of the
    engine's response (`highLightQuery` returns `Hits.GetHighLights` instead). */
module QueryApi {
  import opened Values
  import opened QueryDsl
  import opened Responses

  /** The pagination window and sort key of a request, as the caller asked for them. */
  datatype Page = Page(from: int32, size: int32, sortedField: string, isDesc: bool)

  /** Reads the page back out of a request: present only when both window slots are set
      and there is exactly one sort key. */
  function PageOf(r: SearchRequest): Option<Page>
  {
    if r.from.Some? && r.size.Some? && |r.sort| == 1 then
      Some(Page(r.from.value, r.size.value, r.sort[0].field, r.sort[0].order == Desc))
    else
      None
  }

  /** The one sort key every paginated method sends. */
  function SortOn(sortedField: string, isDesc: bool): (s: FieldSort)
    ensures s.field == sortedField
    ensures s.order == Desc <==> isDesc
  {
    FieldSort(sortedField, if isDesc then Desc else Asc)
  }

  /** What a paginated query method promises about its request: the index, the query, the
      window and the sort key the caller gave, and no highlight or aggregation. */
  predicate PagedSearch(r: SearchRequest, indexName: string, query: Query,
                        sortedField: string, fromIndex: int32, pageSize: int32, isDesc: bool)
  {
    && r.index == [indexName]
    && r.query == Some(query)
    && PageOf(r) == Some(Page(fromIndex, pageSize, sortedField, isDesc))
    && r.highlight.None?
    && r.aggregations == map[]
  }

  /** The request shape shared by the paginated query methods. */
  function Paged(indexName: string, query: Query, sortedField: string,
                 fromIndex: int32, pageSize: int32, isDesc: bool): (r: SearchRequest)
    ensures PagedSearch(r, indexName, query, sortedField, fromIndex, pageSize, isDesc)
  {
    EmptySearch.(index := [indexName], query := Some(query), from := Some(fromIndex),
                 size := Some(pageSize), sort := [SortOn(sortedField, isDesc)])
  }

  /** `PagedSearch` leaves nothing open: a request meets it exactly when it is the shared
      paginated shape, so no slot other than the described ones is set. */
  lemma PagedSearchCharacterises(r: SearchRequest, indexName: string, query: Query,
                                 sortedField: string, fromIndex: int32, pageSize: int32, isDesc: bool)
    ensures PagedSearch(r, indexName, query, sortedField, fromIndex, pageSize, isDesc)
            <==> r == Paged(indexName, query, sortedField, fromIndex, pageSize, isDesc)
  {
    if PagedSearch(r, indexName, query, sortedField, fromIndex, pageSize, isDesc) {
      assert r.sort[0] == SortOn(sortedField, isDesc);
      assert r.sort == [SortOn(sortedField, isDesc)];
    }
  }

  /** Requests for different pages or different sort directions are different requests:
      the window and the direction survive into the request. */
  lemma PageIsRecoverable(indexName: string, query: Query, sortedField: string,
                          fromIndex: int32, pageSize: int32, isDesc: bool,
                          sortedField': string, fromIndex': int32, pageSize': int32, isDesc': bool)
    requires Paged(indexName, query, sortedField, fromIndex, pageSize, isDesc)
             == Paged(indexName, query, sortedField', fromIndex', pageSize', isDesc')
    ensures sortedField == sortedField' && fromIndex == fromIndex' && pageSize == pageSize'
    ensures isDesc == isDesc'
  {
    var r := Paged(indexName, query, sortedField, fromIndex, pageSize, isDesc);
    assert PageOf(r) == Some(Page(fromIndex', pageSize', sortedField', isDesc'));
  }

  function MatchAllQuery(indexName: string, sortedField: string,
                         fromIndex: int32, pageSize: int32, isDesc: bool): (r: SearchRequest)
    ensures PagedSearch(r, indexName, MatchAll, sortedField, fromIndex, pageSize, isDesc)
  {
    Paged(indexName, MatchAll, sortedField, fromIndex, pageSize, isDesc)
  }

  function MatchQuery(indexName: string, searchText: string, searchField: string, sortedField: string,
                      fromIndex: int32, pageSize: int32, isDesc: bool): (r: SearchRequest)
    ensures PagedSearch(r, indexName, Match(searchField, searchText), sortedField, fromIndex, pageSize, isDesc)
  {
    Paged(indexName, Match(searchField, searchText), sortedField, fromIndex, pageSize, isDesc)
  }

  function MultiMatchQuery(indexName: string, searchText: string, searchFields: seq<string>,
                           sortedField: string, fromIndex: int32, pageSize: int32, isDesc: bool): (r: SearchRequest)
    ensures PagedSearch(r, indexName, MultiMatch(searchFields, searchText), sortedField, fromIndex, pageSize, isDesc)
  {
    Paged(indexName, MultiMatch(searchFields, searchText), sortedField, fromIndex, pageSize, isDesc)
  }

  function MatchPhrasePrefixQuery(indexName: string, searchText: string, searchField: string,
                                  sortedField: string, fromIndex: int32, pageSize: int32, isDesc: bool): (r: SearchRequest)
    ensures PagedSearch(r, indexName, MatchPhrasePrefix(searchField, searchText), sortedField, fromIndex, pageSize, isDesc)
  {
    Paged(indexName, MatchPhrasePrefix(searchField, searchText), sortedField, fromIndex, pageSize, isDesc)
  }

  function IdsQuery(indexName: string, searchTexts: seq<string>, sortedField: string,
                    fromIndex: int32, pageSize: int32, isDesc: bool): (r: SearchRequest)
    ensures PagedSearch(r, indexName, Ids(searchTexts), sortedField, fromIndex, pageSize, isDesc)
  {
    Paged(indexName, Ids(searchTexts), sortedField, fromIndex, pageSize, isDesc)
  }

  function TermQuery(indexName: string, searchText: string, searchField: string, sortedField: string,
                     fromIndex: int32, pageSize: int32, isDesc: bool): (r: SearchRequest)
    ensures PagedSearch(r, indexName, Term(searchField, searchText), sortedField, fromIndex, pageSize, isDesc)
  {
    Paged(indexName, Term(searchField, searchText), sortedField, fromIndex, pageSize, isDesc)
  }

  function FuzzyQuery(indexName: string, searchText: string, searchField: string, sortedField: string,
                      fromIndex: int32, pageSize: int32, isDesc: bool): (r: SearchRequest)
    ensures PagedSearch(r, indexName, Fuzzy(searchField, searchText), sortedField, fromIndex, pageSize, isDesc)
  {
    Paged(indexName, Fuzzy(searchField, searchText), sortedField, fromIndex, pageSize, isDesc)
  }

  /** Both bounds are sent as JSON strings, as given. */
  function RangeQuery(indexName: string, fromSearchText: string, toSearchText: string, searchField: string,
                      sortedField: string, fromIndex: int32, pageSize: int32, isDesc: bool): (r: SearchRequest)
    ensures PagedSearch(r, indexName, Range(searchField, Some(fromSearchText), Some(toSearchText)),
                        sortedField, fromIndex, pageSize, isDesc)
  {
    Paged(indexName, Range(searchField, Some(fromSearchText), Some(toSearchText)), sortedField, fromIndex, pageSize, isDesc)
  }

  function WildcardQuery(indexName: string, searchText: string, searchField: string, sortedField: string,
                         fromIndex: int32, pageSize: int32, isDesc: bool): (r: SearchRequest)
    ensures PagedSearch(r, indexName, Wildcard(searchField, searchText), sortedField, fromIndex, pageSize, isDesc)
  {
    Paged(indexName, Wildcard(searchField, searchText), sortedField, fromIndex, pageSize, isDesc)
  }

  /** A constant-score query around exactly one term filter, with the caller's boost. */
  function ConstantScoreQuery(indexName: string, searchText: string, searchField: string, boost: Float32,
                              sortedField: string, fromIndex: int32, pageSize: int32, isDesc: bool): (r: SearchRequest)
    ensures PagedSearch(r, indexName, ConstantScore(Term(searchField, searchText), Some(boost)),
                        sortedField, fromIndex, pageSize, isDesc)
  {
    Paged(indexName, ConstantScore(Term(searchField, searchText), Some(boost)), sortedField, fromIndex, pageSize, isDesc)
  }

  /** The caller's queries, in the given order, with the boost and the tie-breaker. */
  function DisMaxQuery(indexName: string, queries: seq<Query>, boost: Float32, tieBreaker: Float64,
                       sortedField: string, fromIndex: int32, pageSize: int32, isDesc: bool): (r: SearchRequest)
    ensures PagedSearch(r, indexName, DisMax(queries, Some(boost), Some(tieBreaker)),
                        sortedField, fromIndex, pageSize, isDesc)
  {
    Paged(indexName, DisMax(queries, Some(boost), Some(tieBreaker)), sortedField, fromIndex, pageSize, isDesc)
  }

  function QueryStringQuery(indexName: string, searchText: string, sortedField: string,
                            fromIndex: int32, pageSize: int32, isDesc: bool): (r: SearchRequest)
    ensures PagedSearch(r, indexName, QueryString(searchText), sortedField, fromIndex, pageSize, isDesc)
  {
    Paged(indexName, QueryString(searchText), sortedField, fromIndex, pageSize, isDesc)
  }

  function SpanFirstQuery(indexName: string, searchText: string, searchField: string, end: int32,
                          sortedField: string, fromIndex: int32, pageSize: int32, isDesc: bool): (r: SearchRequest)
    ensures PagedSearch(r, indexName, SpanFirst(SpanTermSpan(SpanTermQuery(searchField, searchText)), end),
                        sortedField, fromIndex, pageSize, isDesc)
  {
    Paged(indexName, SpanFirst(SpanTermSpan(SpanTermQuery(searchField, searchText)), end),
          sortedField, fromIndex, pageSize, isDesc)
  }

  function SpanTermQueryRequest(indexName: string, searchText: string, searchField: string, sortedField: string,
                                fromIndex: int32, pageSize: int32, isDesc: bool): (r: SearchRequest)
    ensures PagedSearch(r, indexName, SpanTerm(SpanTermQuery(searchField, searchText)),
                        sortedField, fromIndex, pageSize, isDesc)
  {
    Paged(indexName, SpanTerm(SpanTermQuery(searchField, searchText)), sortedField, fromIndex, pageSize, isDesc)
  }

  /** The caller's queries become the `must` clause, in order; no other clause is set. */
  function BoolQuery(indexName: string, queries: seq<Query>, sortedField: string,
                     fromIndex: int32, pageSize: int32, isDesc: bool): (r: SearchRequest)
    ensures PagedSearch(r, indexName, Bool(queries, [], [], []), sortedField, fromIndex, pageSize, isDesc)
  {
    Paged(indexName, Bool(queries, [], [], []), sortedField, fromIndex, pageSize, isDesc)
  }

  /** The caller's query, unchanged, scoped to `path`; a null score mode stays unset. */
  function NestedQuery(indexName: string, path: string, query: Query, childScoreMode: Option<ChildScoreMode>,
                       sortedField: string, fromIndex: int32, pageSize: int32, isDesc: bool): (r: SearchRequest)
    ensures PagedSearch(r, indexName, Nested(path, query, childScoreMode), sortedField, fromIndex, pageSize, isDesc)
  {
    Paged(indexName, Nested(path, query, childScoreMode), sortedField, fromIndex, pageSize, isDesc)
  }

  /** The caller's query, unchanged, with one highlighted field whose marker lists are the
      single given pre- and post-tag. */
  function HighLightQuery(indexName: string, query: Query, highlightField: string, preTags: string,
                          postTags: string, sortedField: string, fromIndex: int32, pageSize: int32,
                          isDesc: bool): (r: SearchRequest)
    ensures r.index == [indexName] && r.query == Some(query) && r.aggregations == map[]
    ensures PageOf(r) == Some(Page(fromIndex, pageSize, sortedField, isDesc))
    ensures r.highlight.Some? && r.highlight.value.fields.Keys == {highlightField}
    ensures r.highlight.value.fields[highlightField] == HighlightField([preTags], [postTags])
  {
    var field := HighlightField([preTags], [postTags]);
    Paged(indexName, query, sortedField, fromIndex, pageSize, isDesc).(highlight := Some(Highlight(map[highlightField := field])))
  }

  /** The request of `aggsByHistogram`: no hits, a match on the search field, and exactly one
      histogram aggregation, named by the caller. */
  function AggsByHistogramRequest(indexName: string, searchText: string, searchField: string,
                                  aggsField: string, aggsKey: string, intervalValue: Float64): (r: SearchRequest)
    ensures r.index == [indexName] && r.size == Some(0)
    ensures r.query == Some(Match(searchField, searchText))
    ensures r.from.None? && r.sort == [] && r.highlight.None?
    ensures r.aggregations.Keys == {aggsKey}
    ensures r.aggregations[aggsKey] == HistogramAggregation(aggsField, intervalValue)
  {
    EmptySearch.(index := [indexName], size := Some(0), query := Some(Match(searchField, searchText)),
                 aggregations := map[aggsKey := HistogramAggregation(aggsField, intervalValue)])
  }

  /** The get-by-id request `searchById` sends. */
  datatype GetRequest = GetRequest(index: string, id: string)

  /** `searchById`: one get request for the index and id; the response is handed back
      only when the engine found the document, and null stands in for "not found". */
  function SearchById<T>(indexName: string, id: string, response: GetResponse<T>)
    : (r: (GetRequest, Option<GetResponse<T>>))
    ensures r.0 == GetRequest(indexName, id)
    ensures r.1.Some? <==> response.found
    ensures r.1.Some? ==> r.1.value == response
  {
    (GetRequest(indexName, id), if response.found then Some(response) else None)
  }

  /** A non-null answer of `searchById` is always a found document: callers never see a
      "not found" response. */
  lemma SearchByIdNeverReturnsNotFound<T>(indexName: string, id: string, response: GetResponse<T>)
    ensures SearchById(indexName, id, response).1.Some? ==> SearchById(indexName, id, response).1.value.found
    ensures !response.found ==> SearchById(indexName, id, response).1 == SearchById(indexName, id, response.(source := None)).1
  {
  }

  /** What `aggsByHistogram` returns: the bucket array stored under `aggsKey`. A missing
      entry dereferences null; another aggregate kind, or keyed buckets, is refused by the
      response accessors. */
  function HistogramBuckets<T>(response: SearchResponse<T>, aggsKey: string): (r: Result<seq<HistogramBucket>>)
    ensures r.Success? <==> && aggsKey in response.aggregations
                            && response.aggregations[aggsKey].HistogramAggregate?
                            && response.aggregations[aggsKey].buckets.ArrayBuckets?
    ensures r.Success? ==> r.value == response.aggregations[aggsKey].buckets.bucketArray
    ensures aggsKey !in response.aggregations ==> r == Failure(NullPointerException)
  {
    if aggsKey !in response.aggregations then
      Failure(NullPointerException)
    else
      match response.aggregations[aggsKey]
      case OtherAggregate(kind) => Failure(IllegalStateException("not a histogram aggregate: " + kind))
      case HistogramAggregate(buckets) =>
        match buckets
        case KeyedBuckets(_) => Failure(IllegalStateException("buckets are keyed, not an array"))
        case ArrayBuckets(bucketArray) => Success(bucketArray)
  }

  /** `aggsByHistogram`: the request it sends, and what it makes of the engine's answer.
      The buckets are read under the one name the request gave its aggregation: the call
      succeeds exactly when the answer holds an array-shaped histogram under that name,
      and a missing entry dereferences null. */
  function AggsByHistogram<T>(indexName: string, searchText: string, searchField: string,
                              aggsField: string, aggsKey: string, intervalValue: Float64,
                              response: SearchResponse<T>): (r: (SearchRequest, Result<seq<HistogramBucket>>))
    ensures r.0 == AggsByHistogramRequest(indexName, searchText, searchField, aggsField, aggsKey, intervalValue)
    ensures forall k :: k in r.0.aggregations ==>
              (r.1.Success? <==> && k in response.aggregations
                                 && response.aggregations[k].HistogramAggregate?
                                 && response.aggregations[k].buckets.ArrayBuckets?)
    ensures forall k :: k in r.0.aggregations && r.1.Success? ==> r.1.value == response.aggregations[k].buckets.bucketArray
    ensures forall k :: k in r.0.aggregations && k !in response.aggregations ==> r.1 == Failure(NullPointerException)
  {
    (AggsByHistogramRequest(indexName, searchText, searchField, aggsField, aggsKey, intervalValue),
     HistogramBuckets(response, aggsKey))
  }

  /** An engine that answers the histogram request with an array of buckets under the
      requested name hands exactly those buckets back, whatever else the answer holds. */
  lemma AggsByHistogramReturnsAnsweredBuckets<T>(indexName: string, searchText: string, searchField: string,
                                                 aggsField: string, aggsKey: string, intervalValue: Float64,
                                                 hits: Option<seq<Hit<T>>>, others: map<string, Aggregate>,
                                                 buckets: seq<HistogramBucket>)
    ensures var response := SearchResponse(hits, others[aggsKey := HistogramAggregate(ArrayBuckets(buckets))]);
            AggsByHistogram(indexName, searchText, searchField, aggsField, aggsKey, intervalValue, response).1 == Success(buckets)
  {
  }

  /** `spanFirstQuery` wraps the very span-term that `spanTermQuery` sends on its own, and
      passes `end` unchanged; the two requests agree everywhere else. */
  lemma SpanFirstWrapsSpanTerm(indexName: string, searchText: string, searchField: string, end: int32,
                               sortedField: string, fromIndex: int32, pageSize: int32, isDesc: bool)
    ensures var first := SpanFirstQuery(indexName, searchText, searchField, end, sortedField, fromIndex, pageSize, isDesc);
            var alone := SpanTermQueryRequest(indexName, searchText, searchField, sortedField, fromIndex, pageSize, isDesc);
            && first.query.Some? && alone.query.Some?
            && first.query.value.spanMatch.spanTerm == alone.query.value.spanTerm
            && first.query.value.end == end
            && first.(query := alone.query) == alone
  {
  }

  /** `constantScoreQuery` filters on exactly the term query that `termQuery` sends, and
      adds the boost. */
  lemma ConstantScoreWrapsTerm(indexName: string, searchText: string, searchField: string, boost: Float32,
                               sortedField: string, fromIndex: int32, pageSize: int32, isDesc: bool)
    ensures var wrapped := ConstantScoreQuery(indexName, searchText, searchField, boost, sortedField, fromIndex, pageSize, isDesc);
            var term := TermQuery(indexName, searchText, searchField, sortedField, fromIndex, pageSize, isDesc);
            && wrapped.query.Some? && term.query.Some?
            && wrapped.query.value == ConstantScore(term.query.value, Some(boost))
            && wrapped.(query := term.query) == term
  {
  }

  /** The composite builders embed the caller's queries as given: the list (order included)
      or the single query can be read back unchanged. */
  lemma CompositesEmbedUnchanged(indexName: string, queries: seq<Query>, query: Query, path: string,
                                 childScoreMode: Option<ChildScoreMode>, boost: Float32, tieBreaker: Float64,
                                 highlightField: string, preTags: string, postTags: string,
                                 sortedField: string, fromIndex: int32, pageSize: int32, isDesc: bool)
    ensures BoolQuery(indexName, queries, sortedField, fromIndex, pageSize, isDesc).query.value.must == queries
    ensures DisMaxQuery(indexName, queries, boost, tieBreaker, sortedField, fromIndex, pageSize, isDesc).query.value.queries == queries
    ensures NestedQuery(indexName, path, query, childScoreMode, sortedField, fromIndex, pageSize, isDesc).query.value.inner == query
    ensures HighLightQuery(indexName, query, highlightField, preTags, postTags, sortedField, fromIndex, pageSize, isDesc).query.value == query
  {
  }
}
