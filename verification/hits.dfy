/** Result normalisation shared by the query and document APIs: reading the hit list of a
    search response and projecting it, in engine order, to sources, ids or highlights. */
module Hits {
  import opened Values
  import opened Responses

  /** `getHitList`: the response's hit list, where a null or empty list reads as an empty
      list. The result is never null, and a present list comes back as the engine sent it. */
  function GetHitList<T>(response: SearchResponse<T>): (r: seq<Hit<T>>)
    ensures response.hits.None? ==> r == []
    ensures response.hits.Some? ==> r == response.hits.value
  {
    match response.hits
    case None => []
    case Some(hits) => if |hits| == 0 then [] else hits
  }

  /** Projects each hit through `f`, one element per hit, in hit order. */
  function MapHits<T, U>(hits: seq<Hit<T>>, f: Hit<T> -> U): (r: seq<U>)
    ensures |r| == |hits|
    ensures forall i :: 0 <= i < |hits| ==> r[i] == f(hits[i])
  {
    if hits == [] then [] else [f(hits[0])] + MapHits(hits[1..], f)
  }

  /** The source payloads of a response, in hit order. */
  function Sources<T>(response: SearchResponse<T>): (r: seq<T>)
    ensures |r| == |GetHitList(response)|
    ensures forall i :: 0 <= i < |r| ==> r[i] == GetHitList(response)[i].source
  {
    MapHits(GetHitList(response), (h: Hit<T>) => h.source)
  }

  /** The document ids of a response, in hit order. */
  function Ids<T>(response: SearchResponse<T>): (r: seq<string>)
    ensures |r| == |GetHitList(response)|
    ensures forall i :: 0 <= i < |r| ==> r[i] == GetHitList(response)[i].id
  {
    MapHits(GetHitList(response), (h: Hit<T>) => h.id)
  }

  /** `getHighLights`: the highlight map of every hit, in hit order. */
  function GetHighLights<T>(response: SearchResponse<T>): (r: seq<map<string, seq<string>>>)
    ensures |r| == |GetHitList(response)|
    ensures forall i :: 0 <= i < |r| ==> r[i] == GetHitList(response)[i].highlight
  {
    MapHits(GetHitList(response), (h: Hit<T>) => h.highlight)
  }

  /** `getSources`: the loop that collects each hit's source into a fresh list. It agrees
      with the projection `Sources`. */
  method GetSources<T>(response: SearchResponse<T>) returns (result: seq<T>)
    ensures result == Sources(response)
  {
    var hits := GetHitList(response);
    result := [];
    var i := 0;
    while i < |hits|
      invariant 0 <= i <= |hits|
      invariant |result| == i
      invariant forall j :: 0 <= j < i ==> result[j] == hits[j].source
    {
      result := result + [hits[i].source];
      i := i + 1;
    }
  }

  /** On one response, the i-th source and the i-th id come from the same hit, so the two
      lists have equal length. */
  lemma SourcesAndIdsAlign<T>(response: SearchResponse<T>)
    ensures |Sources(response)| == |Ids(response)| == |GetHighLights(response)|
    ensures forall i :: 0 <= i < |Sources(response)| ==>
      Hit(Ids(response)[i], Sources(response)[i], GetHighLights(response)[i]) == GetHitList(response)[i]
  {
  }

  /** Normalising an already normalised hit list changes nothing. */
  lemma GetHitListIdempotent<T>(response: SearchResponse<T>)
    ensures GetHitList(response.(hits := Some(GetHitList(response)))) == GetHitList(response)
  {
  }

  /** A null hit list and an empty one are indistinguishable after normalisation. */
  lemma NullAndEmptyHitsAgree<T>(aggregations: map<string, Aggregate>)
    ensures var absent: SearchResponse<T> := SearchResponse(None, aggregations);
            var empty: SearchResponse<T> := SearchResponse(Some([]), aggregations);
            GetHitList(absent) == GetHitList(empty) == []
  {
  }
}
