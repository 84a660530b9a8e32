# A verified model of the OpenSearch Spring Boot starter's client logic

The starter wraps the OpenSearch Java client in three service classes (`QueryApi`,
`IndexApi`, `DocumentApi`) and one Spring configuration class that builds the REST client.
What the engine does with a request (analysis, scoring, fuzzy matching, spans, bucketing)
happens remotely; what the starter decides for itself is modelled here:

- **Request shaping.** Every query method becomes a function from its parameters to one
  `SearchRequest`: the query tree, the pagination window, one sort key, and optionally a
  highlight or a histogram aggregation. Bulk methods become lists of bulk operations.
- **Response interpretation.** Hit-list normalisation (a null or empty list reads as
  empty), order-preserving projection to sources, ids and highlight maps, the soft miss of
  `searchById`, the bulk `errors` flag, and the shard-statistics collapse of
  `refresh`/`flush`.
- **Call sequencing.** The "delete if it exists, then create" policy of the three create
  methods and the "list every id, then bulk-delete them" composition are functions that
  return the trace of engine calls, given the engine's answers as parameters.
- **Client set-up.** Splitting the address "h1:p1,h2:p2" with Java's `String.split` and
  `Integer.parseInt` semantics, copying the timeouts, and choosing the HTTP-client callback
  depending on whether the scheme is exactly "https".

Modules: `Values` (Java's null, exceptions, `int` and `Number.intValue()`), `QueryDsl`
(request datatypes), `Responses` (engine answers), `Hits` (hit-list normalisation shared
by the query and document APIs), `QueryApi`, `IndexApi`, `DocumentApi` and
`AutoConfiguration`. A query method's Java return value is `Hits.GetSources` (or
`Hits.GetHighLights`) of the engine's answer to the modelled request.

Refresh and flush read the shard statistics literally: only a failure count equal to
`total.intValue()` gives false. More failures than shards gives true, and zero shards with
no failures gives false.

## Model

| member | source | states |
|---|---|---|
| Values.JavaIntValue | src/main/java/com/wujunshen/opensearch/api/IndexApi.java:48 | `Number.intValue()` keeps every value in Java's int range and otherwise agrees with it modulo 2^32 |
| Hits.GetHitList | src/main/java/com/wujunshen/opensearch/api/QueryApi.java:72-82 | a null hit list reads as empty; a present list, empty or not, comes back exactly as the engine sent it, so the result is never null |
| Hits.MapHits | src/main/java/com/wujunshen/opensearch/api/QueryApi.java:61-62 | a projection yields one element per hit, each the projection of the hit at the same position |
| Hits.Sources | src/main/java/com/wujunshen/opensearch/api/QueryApi.java:46-52 | one source per hit, in hit order |
| Hits.Ids | src/main/java/com/wujunshen/opensearch/api/DocumentApi.java:138-143 | one id per hit, in hit order |
| Hits.GetHighLights | src/main/java/com/wujunshen/opensearch/api/QueryApi.java:61-63 | one highlight map per hit, in hit order |
| Hits.GetSources | src/main/java/com/wujunshen/opensearch/api/QueryApi.java:46-52 | the collecting loop returns exactly the per-hit sources, in hit order |
| Hits.SourcesAndIdsAlign | src/main/java/com/wujunshen/opensearch/api/QueryApi.java:46-82 | on one response the source, id and highlight lists have equal length and the i-th entries together rebuild the i-th hit |
| Hits.GetHitListIdempotent | src/main/java/com/wujunshen/opensearch/api/QueryApi.java:72-82 | normalising an already normalised hit list changes nothing |
| Hits.NullAndEmptyHitsAgree | src/main/java/com/wujunshen/opensearch/api/QueryApi.java:75-79 | a null hit list and an empty one give the same empty result |
| QueryApi.SortOn | src/main/java/com/wujunshen/opensearch/api/QueryApi.java:150-151 | the sort key is on the caller's field, and its order is descending exactly when `isDesc` holds |
| QueryApi.Paged | src/main/java/com/wujunshen/opensearch/api/QueryApi.java:143-154 | the shared paginated shape: the caller's index and query, `from` and `size` unchanged, one sort key, no highlight and no aggregation |
| QueryApi.PagedSearchCharacterises | src/main/java/com/wujunshen/opensearch/api/QueryApi.java:143-154 | that description leaves no slot open: a request meets it if and only if it is the shared paginated request |
| QueryApi.PageIsRecoverable | src/main/java/com/wujunshen/opensearch/api/QueryApi.java:143-154 | different windows, sort fields or directions give different requests |
| QueryApi.MatchAllQuery | src/main/java/com/wujunshen/opensearch/api/QueryApi.java:143-154 | a paginated match-all request |
| QueryApi.MatchQuery | src/main/java/com/wujunshen/opensearch/api/QueryApi.java:171-184 | a paginated match of the search text on the search field |
| QueryApi.MultiMatchQuery | src/main/java/com/wujunshen/opensearch/api/QueryApi.java:201-214 | a paginated multi-match of the text over the caller's field list, as given |
| QueryApi.MatchPhrasePrefixQuery | src/main/java/com/wujunshen/opensearch/api/QueryApi.java:231-244 | a paginated phrase-prefix match on the field |
| QueryApi.IdsQuery | src/main/java/com/wujunshen/opensearch/api/QueryApi.java:260-271 | a paginated ids query over the caller's id list |
| QueryApi.TermQuery | src/main/java/com/wujunshen/opensearch/api/QueryApi.java:288-301 | a paginated term query on the field |
| QueryApi.FuzzyQuery | src/main/java/com/wujunshen/opensearch/api/QueryApi.java:318-331 | a paginated fuzzy query on the field |
| QueryApi.RangeQuery | src/main/java/com/wujunshen/opensearch/api/QueryApi.java:349-362 | a paginated range on the field with both bounds set to the caller's strings |
| QueryApi.WildcardQuery | src/main/java/com/wujunshen/opensearch/api/QueryApi.java:379-391 | a paginated wildcard query on the field |
| QueryApi.ConstantScoreQuery | src/main/java/com/wujunshen/opensearch/api/QueryApi.java:409-424 | a paginated constant-score query around one term filter on the field, with the caller's boost |
| QueryApi.DisMaxQuery | src/main/java/com/wujunshen/opensearch/api/QueryApi.java:442-458 | a paginated dis-max over the caller's queries in order, with the boost and tie-breaker |
| QueryApi.QueryStringQuery | src/main/java/com/wujunshen/opensearch/api/QueryApi.java:474-485 | a paginated query-string query of the text |
| QueryApi.SpanFirstQuery | src/main/java/com/wujunshen/opensearch/api/QueryApi.java:503-517 | a paginated span-first around a span-term on the field, with `end` unchanged |
| QueryApi.SpanTermQueryRequest | src/main/java/com/wujunshen/opensearch/api/QueryApi.java:534-545 | a paginated span-term query on the field |
| QueryApi.BoolQuery | src/main/java/com/wujunshen/opensearch/api/QueryApi.java:561-572 | a paginated bool query whose `must` clause is the caller's list in order and whose other clauses are empty |
| QueryApi.NestedQuery | src/main/java/com/wujunshen/opensearch/api/QueryApi.java:590-603 | a paginated nested query with the caller's path, query and score mode |
| QueryApi.HighLightQuery | src/main/java/com/wujunshen/opensearch/api/QueryApi.java:622-635 | the caller's query and window, and exactly one highlighted field whose marker lists are the single given pre- and post-tag |
| QueryApi.AggsByHistogramRequest | src/main/java/com/wujunshen/opensearch/api/QueryApi.java:117-125 | size 0, a match on the search field, no window or sort, and exactly one histogram aggregation under `aggsKey` with the caller's field and interval |
| QueryApi.HistogramBuckets | src/main/java/com/wujunshen/opensearch/api/QueryApi.java:127 | the buckets come back exactly when `aggsKey` holds a histogram with array buckets; a missing key is a null dereference and any other shape is refused |
| QueryApi.AggsByHistogram | src/main/java/com/wujunshen/opensearch/api/QueryApi.java:117-128 | the histogram request, and a result read under the one key that request named: the buckets exactly when the answer holds array buckets there, a null dereference when the key is missing |
| QueryApi.AggsByHistogramReturnsAnsweredBuckets | src/main/java/com/wujunshen/opensearch/api/QueryApi.java:117-128 | an answer holding array buckets under the requested key gives back exactly those buckets, whatever other aggregations it holds |
| QueryApi.SearchById | src/main/java/com/wujunshen/opensearch/api/QueryApi.java:94-103 | one get request for the index and id; the response is returned if and only if it was found, and null otherwise |
| QueryApi.SearchByIdNeverReturnsNotFound | src/main/java/com/wujunshen/opensearch/api/QueryApi.java:97-101 | a non-null answer is always a found document, and a miss is null whatever the payload |
| QueryApi.SpanFirstWrapsSpanTerm | src/main/java/com/wujunshen/opensearch/api/QueryApi.java:503-545 | span-first wraps the very span-term that the span-term method sends, and the two requests agree elsewhere |
| QueryApi.ConstantScoreWrapsTerm | src/main/java/com/wujunshen/opensearch/api/QueryApi.java:409-424 | constant-score filters on exactly the term query the term method sends, plus the boost |
| QueryApi.CompositesEmbedUnchanged | src/main/java/com/wujunshen/opensearch/api/QueryApi.java:442-626 | bool, dis-max, nested and highlight queries carry the caller's queries back unchanged, whatever the highlight field and tags |
| IndexApi.DoOperation | src/main/java/com/wujunshen/opensearch/api/IndexApi.java:46-56 | false exactly when the failure count equals the total read through `intValue()` |
| IndexApi.PartialFailureIsSuccess | src/main/java/com/wujunshen/opensearch/api/IndexApi.java:48-55 | some but not all shards failing is still true |
| IndexApi.OverFailureIsSuccess | src/main/java/com/wujunshen/opensearch/api/IndexApi.java:48-55 | more failures than shards is true as well |
| IndexApi.ZeroShardsIsFailure | src/main/java/com/wujunshen/opensearch/api/IndexApi.java:47-50 | zero shards with zero failures is false |
| IndexApi.DoOperationInRange | src/main/java/com/wujunshen/opensearch/api/IndexApi.java:46-56 | within Java's int range, false if and only if every shard failed |
| IndexApi.Refresh | src/main/java/com/wujunshen/opensearch/api/IndexApi.java:269-274 | one refresh call, judged by the shard-statistics rule |
| IndexApi.Flush | src/main/java/com/wujunshen/opensearch/api/IndexApi.java:283-287 | one flush call, judged by the shard-statistics rule |
| IndexApi.RefreshAndFlushAgree | src/main/java/com/wujunshen/opensearch/api/IndexApi.java:269-287 | refresh and flush give the same answer on the same statistics |
| IndexApi.Recreate | src/main/java/com/wujunshen/opensearch/api/IndexApi.java:65-71 | the create trace starts with exists, ends with create, holds a delete exactly when the index existed, and nothing else |
| IndexApi.CreateIndex | src/main/java/com/wujunshen/opensearch/api/IndexApi.java:65-77 | follows the recreate policy with no mapping; true exactly when acknowledged is TRUE, so null is false |
| IndexApi.Unbox | src/main/java/com/wujunshen/opensearch/api/IndexApi.java:135 | unboxing a null acknowledgement throws, otherwise gives its value |
| IndexApi.CreateIndexWithMapping | src/main/java/com/wujunshen/opensearch/api/IndexApi.java:117-136 | follows the recreate policy with the caller's mapping unchanged, and returns the acknowledgement unboxed |
| IndexApi.CreateIndexWithMappingScript | src/main/java/com/wujunshen/opensearch/api/IndexApi.java:146-166 | the script is deserialised after the check and the delete; on success it behaves as the mapping overload, on failure no create is sent |
| IndexApi.CreateIndexLeavesEmptyIndex | src/main/java/com/wujunshen/opensearch/api/IndexApi.java:65-77 | on an engine whose exists answer is current, the trace never fails and leaves one empty index of that name, the others untouched |
| IndexApi.CreateIndexTwice | src/main/java/com/wujunshen/opensearch/api/IndexApi.java:65-77 | after one create, a second create on the resulting engine leaves it unchanged: one empty index of that name |
| IndexApi.StaleExistsAnswerFails | src/main/java/com/wujunshen/opensearch/api/IndexApi.java:65-71 | if the index appeared after exists answered no, the create fails: the sequence is not atomic |
| IndexApi.GetAllMappings | src/main/java/com/wujunshen/opensearch/api/IndexApi.java:245-260 | one get-mapping call; exactly the engine's index names as keys, each mapped to that record's mappings |
| DocumentApi.AddDocument | src/main/java/com/wujunshen/opensearch/api/DocumentApi.java:42-49 | one index call writing the document to the index without an id; the engine's index response is returned unchanged |
| DocumentApi.AddDocumentWithId | src/main/java/com/wujunshen/opensearch/api/DocumentApi.java:61-68 | one index call writing the document to the index under the caller's id; the engine's index response is returned unchanged |
| DocumentApi.AddDocumentFormsDifferOnlyInId | src/main/java/com/wujunshen/opensearch/api/DocumentApi.java:42-68 | the two forms send requests that differ in the id slot only, and return the same response |
| DocumentApi.AllDocumentsRequest | src/main/java/com/wujunshen/opensearch/api/DocumentApi.java:121-144 | only the index is set: no query, window or sort |
| DocumentApi.GetAllDocument | src/main/java/com/wujunshen/opensearch/api/DocumentApi.java:121-127 | one search call; the sources one per hit, in hit order |
| DocumentApi.GetAllDocumentIds | src/main/java/com/wujunshen/opensearch/api/DocumentApi.java:138-144 | one search call; the ids one per hit, in hit order |
| DocumentApi.AllDocumentsAndIdsAlign | src/main/java/com/wujunshen/opensearch/api/DocumentApi.java:121-144 | on one response both lists have equal length and the i-th id and document come from one hit |
| DocumentApi.IndexOperations | src/main/java/com/wujunshen/opensearch/api/DocumentApi.java:188-190 | one index operation per element, in order, on the index and without an id |
| DocumentApi.DeleteOperations | src/main/java/com/wujunshen/opensearch/api/DocumentApi.java:220-222 | one delete request per id, in order, on the index |
| DocumentApi.AsBulk | src/main/java/com/wujunshen/opensearch/api/DocumentApi.java:221 | each delete request becomes the bulk delete operation at the same position |
| DocumentApi.IndexOperationsRoundTrip | src/main/java/com/wujunshen/opensearch/api/DocumentApi.java:188-190 | the bulk write carries back exactly the caller's documents and deletes nothing |
| DocumentApi.DeleteOperationsRoundTrip | src/main/java/com/wujunshen/opensearch/api/DocumentApi.java:220-222 | the bulk delete carries back exactly the caller's ids and writes nothing |
| DocumentApi.BulkIndexMatchesSingleAdd | src/main/java/com/wujunshen/opensearch/api/DocumentApi.java:185-190 | each bulk index operation is the very request the two-argument `addDocument` sends for that element |
| DocumentApi.BatchAddDocument | src/main/java/com/wujunshen/opensearch/api/DocumentApi.java:185-206 | an empty list sends nothing and fails on the missing `operations`; otherwise one bulk call of those operations, false exactly when the `errors` flag is set |
| DocumentApi.BatchDeleteDocument | src/main/java/com/wujunshen/opensearch/api/DocumentApi.java:217-238 | an empty id list sends nothing and fails on the missing `operations`; otherwise one bulk call of exactly the delete operations, false exactly when the `errors` flag is set |
| DocumentApi.BulkResultIgnoresItems | src/main/java/com/wujunshen/opensearch/api/DocumentApi.java:194-205 | per-item errors change neither bulk outcome, and a non-empty bulk write and bulk delete judge the same response alike |
| DocumentApi.DeleteAllDocument | src/main/java/com/wujunshen/opensearch/api/DocumentApi.java:172-174 | the id listing's calls followed by the bulk delete's calls, with the bulk delete's result or failure |
| DocumentApi.DeleteAllDeletesListedIds | src/main/java/com/wujunshen/opensearch/api/DocumentApi.java:172-174 | on an empty index only the search is sent and the call fails on the missing `operations`; otherwise two calls, the search then a bulk delete of exactly the listed ids in hit order |
| AutoConfiguration.IndexOf | src/main/java/com/wujunshen/opensearch/OpenSearchAutoConfiguration.java:54-55 | the first occurrence of the separator, or the length when there is none |
| AutoConfiguration.Pieces | src/main/java/com/wujunshen/opensearch/OpenSearchAutoConfiguration.java:52-55 | every piece between separators, none of which holds the separator |
| AutoConfiguration.DropTrailingEmpty | src/main/java/com/wujunshen/opensearch/OpenSearchAutoConfiguration.java:52 | removes trailing empty pieces and only those |
| AutoConfiguration.DropKeepsNonEmpty | src/main/java/com/wujunshen/opensearch/OpenSearchAutoConfiguration.java:52 | a non-empty piece and the pieces before it are kept |
| AutoConfiguration.JavaSplit | src/main/java/com/wujunshen/opensearch/OpenSearchAutoConfiguration.java:52-55 | `split` gives the whole string when the separator is absent, otherwise the pieces without trailing empty ones |
| AutoConfiguration.JoinPieces | src/main/java/com/wujunshen/opensearch/OpenSearchAutoConfiguration.java:52 | splitting loses nothing: the joined pieces are the string |
| AutoConfiguration.PiecesJoin | src/main/java/com/wujunshen/opensearch/OpenSearchAutoConfiguration.java:52 | pieces free of the separator are recovered from their join |
| AutoConfiguration.PiecesCons | src/main/java/com/wujunshen/opensearch/OpenSearchAutoConfiguration.java:54-55 | the text before the first separator is the first piece |
| AutoConfiguration.SplitJoined | src/main/java/com/wujunshen/opensearch/OpenSearchAutoConfiguration.java:52-55 | separator-free pieces whose last is non-empty survive join then split |
| AutoConfiguration.ParseInt | src/main/java/com/wujunshen/opensearch/OpenSearchAutoConfiguration.java:57 | success only on an optional sign and at least one decimal digit; unsigned, '+' and '-' forms give their value exactly when it is within int range; every failure is `NumberFormatException` of the input |
| AutoConfiguration.ShowNat | src/main/java/com/wujunshen/opensearch/OpenSearchAutoConfiguration.java:57 | the decimal rendering is non-empty and all digits |
| AutoConfiguration.DigitsValueOfShowNat | src/main/java/com/wujunshen/opensearch/OpenSearchAutoConfiguration.java:57 | the rendering's digits have the rendered value |
| AutoConfiguration.ParseShowNat | src/main/java/com/wujunshen/opensearch/OpenSearchAutoConfiguration.java:57 | `parseInt` reads back every non-negative int from its rendering |
| AutoConfiguration.ParseEntry | src/main/java/com/wujunshen/opensearch/OpenSearchAutoConfiguration.java:54-57 | the host is piece 0 and the port piece 1 of the entry split on ':', with the configured scheme; with fewer than two pieces the access at that count is out of bounds, and a bad port passes on `parseInt`'s exception |
| AutoConfiguration.ParseEntries | src/main/java/com/wujunshen/opensearch/OpenSearchAutoConfiguration.java:53-58 | one host per entry in order when every entry parses; otherwise the first failing entry's exception |
| AutoConfiguration.ParseAddress | src/main/java/com/wujunshen/opensearch/OpenSearchAutoConfiguration.java:52-58 | succeeds exactly when every comma-separated piece parses, giving one host per piece in order with the configured scheme; otherwise the first failing piece's exception |
| AutoConfiguration.TrailingCommaAddsNoEntry | src/main/java/com/wujunshen/opensearch/OpenSearchAutoConfiguration.java:52 | after a non-empty address a trailing comma adds no entry to the split |
| AutoConfiguration.TrailingCommaAddsNoHost | src/main/java/com/wujunshen/opensearch/OpenSearchAutoConfiguration.java:52-58 | after a non-empty address a trailing comma changes neither the hosts nor the failure |
| AutoConfiguration.JoinAppend | src/main/java/com/wujunshen/opensearch/OpenSearchAutoConfiguration.java:52 | appending a piece appends one separator and the piece |
| AutoConfiguration.RenderEntries | src/main/java/com/wujunshen/opensearch/OpenSearchAutoConfiguration.java:53-58 | one "host:port" text per host, in order |
| AutoConfiguration.ParseRenderedEntry | src/main/java/com/wujunshen/opensearch/OpenSearchAutoConfiguration.java:54-57 | an entry written from a host parses back to that host |
| AutoConfiguration.ParseRenderedAddress | src/main/java/com/wujunshen/opensearch/OpenSearchAutoConfiguration.java:52-58 | an address written from a list of hosts parses back to that list, in order |
| AutoConfiguration.ExtraPiecesIgnored | src/main/java/com/wujunshen/opensearch/OpenSearchAutoConfiguration.java:54-55 | pieces after the port are ignored |
| AutoConfiguration.EmptyPortFails | src/main/java/com/wujunshen/opensearch/OpenSearchAutoConfiguration.java:55 | an entry ending right after its ':' has no port piece and fails |
| AutoConfiguration.EntryWithoutPortFails | src/main/java/com/wujunshen/opensearch/OpenSearchAutoConfiguration.java:54-55 | every entry without ':' fails on index 1, and so does a comma-free address made of one |
| AutoConfiguration.NonNumericPortFails | src/main/java/com/wujunshen/opensearch/OpenSearchAutoConfiguration.java:57 | any port piece that is not a sign followed by digits fails the entry, and a comma-free address of it, with `NumberFormatException` of that piece |
| AutoConfiguration.TwoNodeAddress | src/main/java/com/wujunshen/opensearch/OpenSearchAutoConfiguration.java:52-58 | "a:1,b:2" gives two hosts in order |
| AutoConfiguration.SetHttpClientConfigCallback | src/main/java/com/wujunshen/opensearch/OpenSearchAutoConfiguration.java:76-96 | setting the callback replaces the slot and nothing else |
| AutoConfiguration.RestClient | src/main/java/com/wujunshen/opensearch/OpenSearchAutoConfiguration.java:46-100 | hosts from the address, the three timeouts copied, and the callback holding credentials with no hostname check if and only if the scheme is exactly "https", pool limits otherwise |
| AutoConfiguration.UpperCaseHttpsIsNotHttps | src/main/java/com/wujunshen/opensearch/OpenSearchAutoConfiguration.java:83 | "HTTPS" is not "https": pool limits stay and no credentials are attached |

## Left out

- Network I/O and `IOException`: every engine call is a parameter (its response) and a trace entry; transport failures are not modelled.
- The engine's semantics (analysis, scoring, fuzzy distance, wildcards, span positions, dis-max tie-breaking, bucketing) happen remotely; only the requests naming them are modelled, except for a small idealised index map used to state what the create sequence achieves.
- Floating-point parameters (`boost`, `tieBreaker`, `intervalValue`) are opaque bit patterns; nothing is computed with them.
- The JSON mapping script parser and `TypeMapping`'s deserialiser are a foreign library: `IndexApi.CreateIndexWithMappingScript` takes the deserialiser as a function parameter.
- The trust-store `System.setProperty` writes in the https branch change process-global state and are left out; so are the SSL internals, the credentials-provider bean (credentials are an input) and the transport and client beans.
- `NodeApi`, `queryIndex`, `queryIndexDetail`, `getAllIndices`, `getMapping`, `updateDocument`, `getDocument`, `deleteDocument`, `deleteIndex` and `isExistedIndex` are single pass-through calls; `isExistedIndex` and `deleteIndex` appear only as trace entries.
- Logging, Spring annotations, dependency injection and the configuration-property classes (used only as input records).
- Concurrency: check-then-create and list-then-delete are sequential traces; `IndexApi.StaleExistsAnswerFails` only shows one interleaving's consequence.
- DocumentApi.BatchAddDocument and DocumentApi.BatchDeleteDocument: the `MissingRequiredPropertyException` for an empty bulk comes from the client library's `BulkRequest` builder, which is not part of this model; only its outcome (no call, the exception naming `operations`) is stated.
- Null arguments from callers: a null address or list throws before any call and is not modelled. A null score mode in `nestedQuery` is an unset option, which `QueryApi.NestedQuery` takes as `None`.
- DocumentApi.AddDocumentWithId: takes the id as a string, not a nullable one; a null id in the three-argument `addDocument` leaves the id unset, so it sends the same request as `DocumentApi.AddDocument`.
- AutoConfiguration.ParseInt: accepts ASCII digits only, while Java's `Character.digit` also accepts other Unicode decimal digits.
- AutoConfiguration.ParseEntry and AutoConfiguration.RestClient: do not model `HttpHost`'s own checks and normalisation, which belong to the HTTP client library:
  - it rejects an empty host name with `IllegalArgumentException`, so ":9200" fails in Java while the model gives a host named "";
  - it rejects a host name containing whitespace, so "a:1, b:2" fails on " b";
  - it lower-cases the scheme, with a null scheme defaulting to "http";
  - it keeps a lower-cased copy of the host name.
  The builder also rejects an empty host list.
- AutoConfiguration.RestClient: returns the builder's settings rather than a built client; building is the library's business.
- QueryApi.MatchAllQuery and the other paginated builders return the request they send; the method's list result is `Hits.GetSources` of the engine's answer, stated separately in `Hits`.
