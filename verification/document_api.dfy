/** The document API: single writes, the two bulk methods, and the "list every id, then
    bulk-delete them" composition. Engine answers are parameters; each method returns the
    trace of engine calls it issues together with its result. */
module DocumentApi {
  import opened Values
  import opened QueryDsl
  import opened Responses
  import Hits

  /** A single-document write; without an id the engine assigns one. */
  datatype IndexRequest<T> = IndexRequest(index: string, id: Option<string>, document: T)

  /** A delete of one document; it carries no document, so it has no document type. */
  datatype DeleteRequest = DeleteRequest(index: string, id: string)

  /** One operation of a bulk request. */
  datatype BulkOperation<T> =
    | IndexOp(index: string, id: Option<string>, document: T)
    | DeleteOp(delete: DeleteRequest)

  datatype BulkRequest<T> = BulkRequest(operations: seq<BulkOperation<T>>)

  /** The engine calls the document API issues. */
  datatype Call<T> =
    | IndexCall(request: IndexRequest<T>)
    | SearchCall(search: SearchRequest)
    | BulkCall(bulk: BulkRequest<T>)

  // ---------------------------------------------------------------------------------------
  // Single writes

  /** `addDocument(indexName, o)`: one index call that writes the document without an id,
      so the engine assigns one; the engine's answer is returned as it came. */
  function AddDocument<T>(indexName: string, o: T, response: IndexResponse): (r: Run<Call<T>, IndexResponse>)
    ensures |r.calls| == 1 && r.calls[0].IndexCall?
    ensures r.calls[0].request.index == indexName && r.calls[0].request.document == o
    ensures r.calls[0].request.id.None?
    ensures r.result == response
  {
    Run([IndexCall(IndexRequest(indexName, None, o))], response)
  }

  /** `addDocument(indexName, id, o)`: one index call that writes the document under the
      caller's id; the engine's answer is returned as it came. */
  function AddDocumentWithId<T>(indexName: string, id: string, o: T, response: IndexResponse): (r: Run<Call<T>, IndexResponse>)
    ensures |r.calls| == 1 && r.calls[0].IndexCall?
    ensures r.calls[0].request.index == indexName && r.calls[0].request.document == o
    ensures r.calls[0].request.id == Some(id)
    ensures r.result == response
  {
    Run([IndexCall(IndexRequest(indexName, Some(id), o))], response)
  }

  /** The two forms of `addDocument` differ in the id slot of their one request only. */
  lemma AddDocumentFormsDifferOnlyInId<T>(indexName: string, id: string, o: T, response: IndexResponse)
    ensures var withId := AddDocumentWithId(indexName, id, o, response);
            var without := AddDocument(indexName, o, response);
            && withId.calls[0].request.(id := None) == without.calls[0].request
            && withId.calls != without.calls
            && withId.result == without.result
  {
  }

  // ---------------------------------------------------------------------------------------
  // Reading every document

  /** The search behind `getAllDocument` and `getAllDocumentIds`: only the index is set,
      so the engine's default query and window apply. */
  function AllDocumentsRequest(indexName: string): (r: SearchRequest)
    ensures r.index == [indexName]
    ensures r.query.None? && r.from.None? && r.size.None?
    ensures r.sort == [] && r.highlight.None? && r.aggregations == map[]
  {
    EmptySearch.(index := [indexName])
  }

  /** `getAllDocument`: the sources of the default window, in hit order. */
  function GetAllDocument<T>(indexName: string, response: SearchResponse<T>): (r: Run<Call<T>, seq<T>>)
    ensures r.calls == [SearchCall(AllDocumentsRequest(indexName))]
    ensures |r.result| == |Hits.GetHitList(response)|
    ensures forall i :: 0 <= i < |r.result| ==> r.result[i] == Hits.GetHitList(response)[i].source
  {
    Run([SearchCall(AllDocumentsRequest(indexName))], Hits.Sources(response))
  }

  /** `getAllDocumentIds`: the ids of the default window, in hit order. */
  function GetAllDocumentIds<T>(indexName: string, response: SearchResponse<T>): (r: Run<Call<T>, seq<string>>)
    ensures r.calls == [SearchCall(AllDocumentsRequest(indexName))]
    ensures |r.result| == |Hits.GetHitList(response)|
    ensures forall i :: 0 <= i < |r.result| ==> r.result[i] == Hits.GetHitList(response)[i].id
  {
    Run([SearchCall(AllDocumentsRequest(indexName))], Hits.Ids(response))
  }

  /** On the same response the two lists line up: equal length, and the i-th id belongs
      to the i-th document. */
  lemma AllDocumentsAndIdsAlign<T>(indexName: string, response: SearchResponse<T>)
    ensures GetAllDocument(indexName, response).calls == GetAllDocumentIds(indexName, response).calls
    ensures |GetAllDocument(indexName, response).result| == |GetAllDocumentIds(indexName, response).result|
    ensures forall i :: 0 <= i < |GetAllDocument(indexName, response).result| ==>
      exists h :: h in Hits.GetHitList(response) && h.source == GetAllDocument(indexName, response).result[i]
                                                 && h.id == GetAllDocumentIds(indexName, response).result[i]
  {
    var docs := GetAllDocument(indexName, response).result;
    var ids := GetAllDocumentIds(indexName, response).result;
    var hits := Hits.GetHitList(response);
    forall i | 0 <= i < |docs|
      ensures exists h :: h in hits && h.source == docs[i] && h.id == ids[i]
    {
      assert hits[i] in hits;
    }
  }

  // ---------------------------------------------------------------------------------------
  // Bulk requests

  /** One index operation per document, in list order, each on `indexName` without an id. */
  function IndexOperations<T>(indexName: string, list: seq<T>): (ops: seq<BulkOperation<T>>)
    ensures |ops| == |list|
    ensures forall i :: 0 <= i < |list| ==>
      ops[i].IndexOp? && ops[i].index == indexName && ops[i].id.None? && ops[i].document == list[i]
  {
    if list == [] then [] else [IndexOp(indexName, None, list[0])] + IndexOperations(indexName, list[1..])
  }

  /** One delete operation per id, in list order, each on `indexName`. */
  function DeleteOperations(indexName: string, ids: seq<string>): (ops: seq<DeleteRequest>)
    ensures |ops| == |ids|
    ensures forall i :: 0 <= i < |ids| ==> ops[i] == DeleteRequest(indexName, ids[i])
  {
    if ids == [] then [] else [DeleteRequest(indexName, ids[0])] + DeleteOperations(indexName, ids[1..])
  }

  /** Delete requests as bulk operations, in order. */
  function AsBulk<T>(deletes: seq<DeleteRequest>): (ops: seq<BulkOperation<T>>)
    ensures |ops| == |deletes|
    ensures forall i :: 0 <= i < |deletes| ==> ops[i] == DeleteOp(deletes[i])
  {
    if deletes == [] then [] else [DeleteOp(deletes[0])] + AsBulk(deletes[1..])
  }

  /** The documents a bulk request writes, in order. */
  function Documents<T>(ops: seq<BulkOperation<T>>): seq<T>
  {
    if ops == [] then []
    else (if ops[0].IndexOp? then [ops[0].document] else []) + Documents(ops[1..])
  }

  /** The ids a bulk request deletes, in order. */
  function DeletedIds<T>(ops: seq<BulkOperation<T>>): seq<string>
  {
    if ops == [] then []
    else (if ops[0].DeleteOp? then [ops[0].delete.id] else []) + DeletedIds(ops[1..])
  }

  /** The bulk write carries exactly the caller's documents, in order. */
  lemma {:induction false} IndexOperationsRoundTrip<T>(indexName: string, list: seq<T>)
    ensures Documents(IndexOperations(indexName, list)) == list
    ensures DeletedIds(IndexOperations(indexName, list)) == []
  {
    if list != [] {
      IndexOperationsRoundTrip(indexName, list[1..]);
      assert IndexOperations(indexName, list)[1..] == IndexOperations(indexName, list[1..]);
    }
  }

  /** The bulk delete carries exactly the caller's ids, in order, and writes nothing. */
  lemma {:induction false} DeleteOperationsRoundTrip<T>(indexName: string, ids: seq<string>)
    ensures DeletedIds(AsBulk<T>(DeleteOperations(indexName, ids))) == ids
    ensures Documents(AsBulk<T>(DeleteOperations(indexName, ids))) == []
  {
    if ids != [] {
      DeleteOperationsRoundTrip<T>(indexName, ids[1..]);
      assert DeleteOperations(indexName, ids)[1..] == DeleteOperations(indexName, ids[1..]);
    }
  }

  /** A bulk operation inside `batchAddDocument` is the same write as the two-argument
      `addDocument` of that element. */
  lemma BulkIndexMatchesSingleAdd<T>(indexName: string, list: seq<T>, i: int, response: IndexResponse)
    requires 0 <= i < |list|
    ensures var op := IndexOperations(indexName, list)[i];
            IndexCall(IndexRequest(op.index, op.id, op.document)) == AddDocument(indexName, list[i], response).calls[0]
  {
  }

  /** The client's bulk request builder refuses to build without operations: the loop over
      an empty list leaves that required property unset. */
  const MissingOperations: JavaException := MissingRequiredPropertyException("operations")

  /** `batchAddDocument`: one bulk call of the index operations; false exactly when the
      response's `errors` flag is set. Item errors are only reported: nothing is retried or
      rolled back. An empty list throws while the request is built, before any call. */
  function BatchAddDocument<T>(indexName: string, list: seq<T>, response: BulkResponse): (r: Run<Call<T>, Result<bool>>)
    ensures list == [] ==> r.calls == [] && r.result == Failure(MissingOperations)
    ensures list != [] ==> |r.calls| == 1 && r.calls[0].BulkCall?
    ensures list != [] ==> r.calls[0].bulk.operations == IndexOperations(indexName, list)
    ensures list != [] ==> r.result.Success? && (!r.result.value <==> response.errors)
  {
    if list == [] then Run([], Failure(MissingOperations))
    else Run([BulkCall(BulkRequest(IndexOperations(indexName, list)))], Success(!response.errors))
  }

  /** `batchDeleteDocument`: one bulk call of the deletes; false exactly when the response's
      `errors` flag is set. An empty id list throws while the request is built, before any
      call. The document type only types the request; no document is sent. */
  function BatchDeleteDocument<T>(indexName: string, ids: seq<string>, response: BulkResponse): (r: Run<Call<T>, Result<bool>>)
    ensures ids == [] ==> r.calls == [] && r.result == Failure(MissingOperations)
    ensures ids != [] ==> |r.calls| == 1 && r.calls[0].BulkCall?
    ensures ids != [] ==> r.calls[0].bulk.operations == AsBulk(DeleteOperations(indexName, ids))
    ensures ids != [] ==> r.result.Success? && (!r.result.value <==> response.errors)
  {
    if ids == [] then Run([], Failure(MissingOperations))
    else Run([BulkCall(BulkRequest(AsBulk(DeleteOperations(indexName, ids))))], Success(!response.errors))
  }

  /** The bulk outcome is the summary flag alone: per-item errors neither add nor remove
      a failure, and on one answer a non-empty add and a non-empty delete agree. */
  lemma BulkResultIgnoresItems<T>(indexName: string, list: seq<T>, ids: seq<string>, response: BulkResponse,
                                  items: seq<BulkResponseItem>)
    ensures BatchAddDocument(indexName, list, response).result
            == BatchAddDocument(indexName, list, response.(items := items)).result
    ensures BatchDeleteDocument<T>(indexName, ids, response).result
            == BatchDeleteDocument<T>(indexName, ids, response.(items := items)).result
    ensures list != [] && ids != [] ==>
      BatchAddDocument(indexName, list, response).result == BatchDeleteDocument<T>(indexName, ids, response).result
  {
  }

  /** `deleteAllDocument`: `getAllDocumentIds` followed by `batchDeleteDocument` of those
      ids, as two separate steps; the result is the bulk delete's. */
  function DeleteAllDocument<T>(indexName: string, listed: SearchResponse<T>, deleted: BulkResponse): (r: Run<Call<T>, Result<bool>>)
    ensures var ids := GetAllDocumentIds(indexName, listed);
            var batch := BatchDeleteDocument<T>(indexName, ids.result, deleted);
            r.calls == ids.calls + batch.calls && r.result == batch.result
  {
    var ids := GetAllDocumentIds(indexName, listed);
    var batch := BatchDeleteDocument<T>(indexName, ids.result, deleted);
    Run(ids.calls + batch.calls, batch.result)
  }

  /** When the default window holds hits, the delete-all bulk request deletes exactly their
      ids, in hit order, one per listed document, and documents beyond the window are not
      deleted. When it holds none, the search is the only call and the method throws. */
  lemma DeleteAllDeletesListedIds<T>(indexName: string, listed: SearchResponse<T>, deleted: BulkResponse)
    ensures var r := DeleteAllDocument(indexName, listed, deleted);
            Hits.GetHitList(listed) == [] ==>
              && r.calls == [SearchCall(AllDocumentsRequest(indexName))]
              && r.result == Failure(MissingOperations)
    ensures var r := DeleteAllDocument(indexName, listed, deleted);
            Hits.GetHitList(listed) != [] ==>
              && |r.calls| == 2
              && r.calls[0] == SearchCall(AllDocumentsRequest(indexName))
              && r.calls[1].BulkCall?
              && DeletedIds(r.calls[1].bulk.operations) == Hits.Ids(listed)
              && |r.calls[1].bulk.operations| == |GetAllDocument(indexName, listed).result|
              && r.result.Success? && (!r.result.value <==> deleted.errors)
  {
    DeleteOperationsRoundTrip<T>(indexName, Hits.Ids(listed));
  }
}
