/** The engine's answers, as far as this client reads them. They are inputs to the model:
    nothing here is computed by the client. */
module Responses {
  import opened Values

  /** One matched document: its id, its source payload and its highlight fragments
      (field name to marked-up fragments). */
  datatype Hit<T> = Hit(id: string, source: T, highlight: map<string, seq<string>>)

  datatype HistogramBucket = HistogramBucket(key: Float64, docCount: int)

  /** A bucket list comes back either as an array or keyed by bucket name. */
  datatype Buckets = ArrayBuckets(bucketArray: seq<HistogramBucket>) | KeyedBuckets(keyed: map<string, HistogramBucket>)

  /** An aggregation result: a histogram, or some other kind (named by `kind`). */
  datatype Aggregate = HistogramAggregate(buckets: Buckets) | OtherAggregate(kind: string)

  /** A search response: the hit list (`None` stands for a null list) and the aggregation
      results by name. */
  datatype SearchResponse<T> = SearchResponse(
    hits: Option<seq<Hit<T>>>,
    aggregations: map<string, Aggregate>)

  /** The answer to a single-document write: where the document went and what happened. */
  datatype IndexResponse = IndexResponse(index: string, id: string, result: string)

  /** The answer to a get-by-id request. */
  datatype GetResponse<T> = GetResponse(index: string, id: string, found: bool, source: Option<T>)

  datatype ShardFailure = ShardFailure(index: Option<string>, shard: int, reason: string)

  /** Per-shard outcome of a refresh or flush. `total` is a JSON number the client reads
      through `Number.intValue()`. */
  datatype ShardStatistics = ShardStatistics(failures: seq<ShardFailure>, total: int, successful: int)

  datatype ErrorCause = ErrorCause(kind: string, reason: string)

  datatype BulkResponseItem = BulkResponseItem(id: Option<string>, status: int, error: Option<ErrorCause>)

  /** A bulk response: the summary flag `errors` and one item per operation. */
  datatype BulkResponse = BulkResponse(errors: bool, items: seq<BulkResponseItem>)
}
