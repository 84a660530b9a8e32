/** The request side of the search engine's API, as far as this client builds it: the query
    tree, sort keys, highlight and aggregation specifications, and the search request itself.
    Every value is immutable; building a query never changes the queries it is built from. */
module QueryDsl {
  import opened Values

  datatype SortOrder = Asc | Desc

  /** One sort key: a field and a direction. */
  datatype FieldSort = FieldSort(field: string, order: SortOrder)

  /** How the scores of matching nested documents roll up to their parent. */
  datatype ChildScoreMode = ScoreNone | Avg | Sum | Max | Min

  /** A positional exact-term match. */
  datatype SpanTermQuery = SpanTermQuery(field: string, value: string)

  /** The span queries that can stand inside a span-first query; this client only ever
      builds the span-term kind. */
  datatype SpanQuery = SpanTermSpan(spanTerm: SpanTermQuery)

  /** The query variants this client builds. Text values travel as strings; the engine
      decides what they mean. */
  datatype Query =
    | MatchAll
    | Match(field: string, text: string)
    | MultiMatch(fields: seq<string>, text: string)
    | MatchPhrasePrefix(field: string, text: string)
    | Ids(values: seq<string>)
    | Term(field: string, value: string)
    | Fuzzy(field: string, value: string)
    | Range(field: string, from: Option<string>, to: Option<string>)
    | Wildcard(field: string, value: string)
    | ConstantScore(filter: Query, boost: Option<Float32>)
    | DisMax(queries: seq<Query>, boost: Option<Float32>, tieBreaker: Option<Float64>)
    | QueryString(text: string)
    | SpanFirst(spanMatch: SpanQuery, end: int32)
    | SpanTerm(spanTerm: SpanTermQuery)
    | Bool(must: seq<Query>, should: seq<Query>, filters: seq<Query>, mustNot: seq<Query>)
    | Nested(path: string, inner: Query, scoreMode: Option<ChildScoreMode>)

  /** Highlight markers for one field; the engine accepts a list of each. */
  datatype HighlightField = HighlightField(preTags: seq<string>, postTags: seq<string>)

  datatype Highlight = Highlight(fields: map<string, HighlightField>)

  datatype Aggregation = HistogramAggregation(field: string, interval: Float64)

  /** A search request. An absent slot (`None`, `[]`, `map[]`) leaves the engine's default. */
  datatype SearchRequest = SearchRequest(
    index: seq<string>,
    query: Option<Query>,
    from: Option<int32>,
    size: Option<int32>,
    sort: seq<FieldSort>,
    highlight: Option<Highlight>,
    aggregations: map<string, Aggregation>)

  /** The request before any slot is set. */
  const EmptySearch: SearchRequest := SearchRequest([], None, None, None, [], None, map[])
}
