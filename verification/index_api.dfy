/** The index API: the shard-statistics collapse behind refresh and flush, the
    "delete if it exists, then create" policy of the three create methods, and the
    collection of every index's mapping. Engine answers are parameters; each method returns
    the trace of engine calls it issues together with its result. */
module IndexApi {
  import opened Values
  import opened Responses

  /** A field type in an index mapping; nested and object fields hold further fields. */
  datatype Property =
    | LongProperty
    | IntegerProperty
    | DoubleProperty
    | TextProperty(fielddata: bool)
    | KeywordProperty
    | DateProperty
    | NestedProperty(properties: map<string, Property>)
    | ObjectProperty(properties: map<string, Property>)

  datatype TypeMapping = TypeMapping(properties: map<string, Property>)

  datatype CreateIndexRequest = CreateIndexRequest(index: string, mappings: Option<TypeMapping>)

  /** `acknowledged` is a boxed Boolean in the response, so it may be null. */
  datatype CreateIndexResponse = CreateIndexResponse(index: string, acknowledged: Option<bool>)

  /** The answer to a refresh or flush request. */
  datatype ShardsResponse = ShardsResponse(shards: ShardStatistics)

  datatype IndexMappingRecord = IndexMappingRecord(mappings: TypeMapping)

  /** The engine calls the index API issues. */
  datatype Call =
    | ExistsCall(index: string)
    | DeleteCall(index: string)
    | CreateCall(request: CreateIndexRequest)
    | RefreshCall(index: string)
    | FlushCall(index: string)
    | GetMappingCall

  // ---------------------------------------------------------------------------------------
  // Refresh and flush

  /** `doOperation`: false exactly when the number of shard failures equals the total,
      where the total is read through `intValue()`; every other case, partial failure
      included, is true. */
  function DoOperation(stats: ShardStatistics): (r: bool)
    ensures !r <==> |stats.failures| == JavaIntValue(stats.total)
  {
    var failedShards := |stats.failures|;
    if failedShards == JavaIntValue(stats.total) then false
    else true
  }

  /** Partial failure still counts as success. */
  lemma PartialFailureIsSuccess(stats: ShardStatistics)
    requires 0 < |stats.failures| < stats.total <= MaxInt32
    ensures DoOperation(stats)
  {
  }

  /** More failures than shards also counts as success: only equality gives false. */
  lemma OverFailureIsSuccess(stats: ShardStatistics)
    requires 0 <= stats.total < |stats.failures|
    requires stats.total <= MaxInt32
    ensures DoOperation(stats)
  {
  }

  /** A response that reports no shards at all and no failures reads as total failure. */
  lemma ZeroShardsIsFailure(stats: ShardStatistics)
    requires stats.total == 0 && stats.failures == []
    ensures !DoOperation(stats)
  {
  }

  /** Within Java's int range the collapse is: false iff every shard failed. */
  lemma DoOperationInRange(stats: ShardStatistics)
    requires 0 <= stats.total <= MaxInt32
    ensures DoOperation(stats) <==> |stats.failures| != stats.total
  {
  }

  /** `refresh`: one refresh call, whose shard statistics decide the result. */
  function Refresh(indexName: string, response: ShardsResponse): (r: Run<Call, bool>)
    ensures r.calls == [RefreshCall(indexName)]
    ensures !r.result <==> |response.shards.failures| == JavaIntValue(response.shards.total)
  {
    Run([RefreshCall(indexName)], DoOperation(response.shards))
  }

  /** `flush`: one flush call, whose shard statistics decide the result. */
  function Flush(indexName: string, response: ShardsResponse): (r: Run<Call, bool>)
    ensures r.calls == [FlushCall(indexName)]
    ensures !r.result <==> |response.shards.failures| == JavaIntValue(response.shards.total)
  {
    Run([FlushCall(indexName)], DoOperation(response.shards))
  }

  /** Refresh and flush read the same kind of answer the same way. */
  lemma RefreshAndFlushAgree(indexName: string, response: ShardsResponse)
    ensures Refresh(indexName, response).result == Flush(indexName, response).result
  {
  }

  // ---------------------------------------------------------------------------------------
  // Create: delete if it exists, then create

  /** The recreate policy as a property of a trace: it starts with the existence check,
      ends with the create, holds a delete of the index exactly when the index existed,
      and nothing else. */
  predicate RecreatePolicy(calls: seq<Call>, indexName: string, existed: bool, request: CreateIndexRequest)
  {
    && 2 <= |calls| <= 3
    && calls[0] == ExistsCall(indexName)
    && calls[|calls| - 1] == CreateCall(request)
    && (forall i :: 0 < i < |calls| - 1 ==> calls[i] == DeleteCall(indexName))
    && (existed <==> DeleteCall(indexName) in calls)
  }

  /** The call sequence shared by the three create methods: ask whether the index exists,
      delete it when the engine said yes, then create it. */
  function Recreate(indexName: string, existed: bool, request: CreateIndexRequest): (calls: seq<Call>)
    ensures RecreatePolicy(calls, indexName, existed, request)
  {
    var calls := [ExistsCall(indexName)] + (if existed then [DeleteCall(indexName)] else []) + [CreateCall(request)];
    assert existed ==> calls[1] == DeleteCall(indexName);
    assert !existed ==> calls == [ExistsCall(indexName), CreateCall(request)];
    calls
  }

  /** `createIndex`: recreates the index without a mapping and returns true only when
      the engine acknowledged with TRUE; a null acknowledgement counts as false. */
  function CreateIndex(indexName: string, existed: bool, created: CreateIndexResponse): (r: Run<Call, bool>)
    ensures RecreatePolicy(r.calls, indexName, existed, CreateIndexRequest(indexName, None))
    ensures r.result <==> created.acknowledged == Some(true)
  {
    Run(Recreate(indexName, existed, CreateIndexRequest(indexName, None)), created.acknowledged == Some(true))
  }

  /** Unboxing the acknowledgement: a null one throws. */
  function Unbox(acknowledged: Option<bool>): (r: Result<bool>)
    ensures acknowledged.None? ==> r == Failure(NullPointerException)
    ensures acknowledged.Some? ==> r == Success(acknowledged.value)
  {
    match acknowledged
    case None => Failure(NullPointerException)
    case Some(b) => Success(b)
  }

  /** `createIndexWithMapping(String, TypeMapping)`: recreates the index with the caller's
      mapping, unchanged, and returns the acknowledgement unboxed. */
  function CreateIndexWithMapping(indexName: string, typeMapping: TypeMapping, existed: bool,
                                  created: CreateIndexResponse): (r: Run<Call, Result<bool>>)
    ensures RecreatePolicy(r.calls, indexName, existed, CreateIndexRequest(indexName, Some(typeMapping)))
    ensures created.acknowledged.None? ==> r.result == Failure(NullPointerException)
    ensures created.acknowledged.Some? ==> r.result == Success(created.acknowledged.value)
  {
    var request := CreateIndexRequest(indexName, Some(typeMapping));
    Run(Recreate(indexName, existed, request), Unbox(created.acknowledged))
  }

  /** `createIndexWithMapping(String, String)`: the mapping script is deserialised (by a
      library, here the parameter `deserialize`) only after the existence check and the
      delete. When deserialisation throws, no create is sent, so an index that existed is
      left deleted. */
  function CreateIndexWithMappingScript(indexName: string, mappingScript: string, existed: bool,
                                        deserialize: string -> Result<TypeMapping>,
                                        created: CreateIndexResponse): (r: Run<Call, Result<bool>>)
    ensures deserialize(mappingScript).Success? ==>
      && RecreatePolicy(r.calls, indexName, existed, CreateIndexRequest(indexName, Some(deserialize(mappingScript).value)))
      && r.result == Unbox(created.acknowledged)
    ensures deserialize(mappingScript).Failure? ==>
      && r.calls == [ExistsCall(indexName)] + (if existed then [DeleteCall(indexName)] else [])
      && r.result == Failure(deserialize(mappingScript).error)
  {
    var checkAndDelete := [ExistsCall(indexName)] + (if existed then [DeleteCall(indexName)] else []);
    match deserialize(mappingScript)
    case Failure(e) => Run(checkAndDelete, Failure(e))
    case Success(typeMapping) => CreateIndexWithMapping(indexName, typeMapping, existed, created)
  }

  // ---------------------------------------------------------------------------------------
  // An idealised engine, to state what the recreate policy achieves

  /** The engine's indices, each with its number of documents. */
  type Indices = map<string, nat>

  /** What one call does to the engine's indices; `None` is an engine error: deleting a
      missing index, or creating one that already exists. */
  function ApplyCall(state: Indices, call: Call): Option<Indices>
  {
    match call
    case DeleteCall(index) => if index in state then Some(state - {index}) else None
    case CreateCall(request) => if request.index in state then None else Some(state[request.index := 0])
    case _ => Some(state)
  }

  function Apply(state: Indices, calls: seq<Call>): Option<Indices>
    decreases |calls|
  {
    if calls == [] then Some(state)
    else
      match ApplyCall(state, calls[0])
      case None => None
      case Some(next) => Apply(next, calls[1..])
  }

  /** When the existence answer is current, the recreate trace never fails and leaves the
      index present and empty, every other index untouched. */
  lemma CreateIndexLeavesEmptyIndex(state: Indices, indexName: string, created: CreateIndexResponse)
    ensures Apply(state, CreateIndex(indexName, indexName in state, created).calls) == Some(state[indexName := 0])
  {
    var calls := CreateIndex(indexName, indexName in state, created).calls;
    var request := CreateIndexRequest(indexName, None);
    if indexName in state {
      assert calls == [ExistsCall(indexName), DeleteCall(indexName), CreateCall(request)];
      var deleted := state - {indexName};
      assert Apply(deleted, calls[2..]) == Some(deleted[indexName := 0]);
      assert deleted[indexName := 0] == state[indexName := 0];
    } else {
      assert calls == [ExistsCall(indexName), CreateCall(request)];
      assert Apply(state, calls[1..]) == Some(state[indexName := 0]);
    }
  }

  /** Creating twice in a row ends where creating once does: after the first create's
      trace, the second one's leaves the engine unchanged, with one empty index of that
      name whatever it held before. */
  lemma CreateIndexTwice(state: Indices, indexName: string, first: CreateIndexResponse, second: CreateIndexResponse)
    ensures var once := Apply(state, CreateIndex(indexName, indexName in state, first).calls);
            && once == Some(state[indexName := 0])
            && Apply(once.value, CreateIndex(indexName, indexName in once.value, second).calls) == once
  {
    CreateIndexLeavesEmptyIndex(state, indexName, first);
    var once := state[indexName := 0];
    CreateIndexLeavesEmptyIndex(once, indexName, second);
    assert once[indexName := 0] == once;
  }

  /** The check-then-create sequence is not atomic: if another client created the index
      after the existence check answered no, the create fails in the engine. */
  lemma StaleExistsAnswerFails(state: Indices, indexName: string, created: CreateIndexResponse)
    requires indexName in state
    ensures Apply(state, CreateIndex(indexName, false, created).calls) == None
  {
    var calls := CreateIndex(indexName, false, created).calls;
    assert calls == [ExistsCall(indexName), CreateCall(CreateIndexRequest(indexName, None))];
    assert Apply(state, calls[1..]) == None;
  }

  // ---------------------------------------------------------------------------------------
  // Mappings

  /** `getAllMappings`: one get-mapping call, then one entry per index the engine
      reported, holding that record's mapping. */
  method GetAllMappings(records: map<string, IndexMappingRecord>) returns (calls: seq<Call>, result: map<string, TypeMapping>)
    ensures calls == [GetMappingCall]
    ensures result.Keys == records.Keys
    ensures forall key :: key in result ==> result[key] == records[key].mappings
  {
    calls := [GetMappingCall];
    result := map[];
    var remaining := records.Keys;
    while remaining != {}
      invariant remaining <= records.Keys
      invariant result.Keys == records.Keys - remaining
      invariant forall key :: key in result ==> result[key] == records[key].mappings
      decreases remaining
    {
      var key :| key in remaining;
      result := result[key := records[key].mappings];
      remaining := remaining - {key};
    }
  }
}
