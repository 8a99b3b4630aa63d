/** The pure bookkeeping of the real-estate price crawler: the detail requests
    carry the property IDs in batches of ten, and a quadrant search that hit
    the result cap is reported. */
module RealEstatePrices {
  import opened Wrappers

  /** A JSON value as the crawler sees it: an integer, or anything else. */
  datatype JsonValue = JsonNumber(n: int) | JsonOther

  /** A decoded JSON object. */
  type JsonObject = map<string, JsonValue>

  /** `ids_per_request` in fetch_real_estates_details. */
  const IdsPerRequest: int := 10

  /** The most results one quadrant search returns. */
  const ResultsCap: int := 1000

  /** `[re['ID'] for re in real_estates]`: the IDs in estate order; a missing
      key raises (KeyError). */
  function AllIds(estates: seq<JsonObject>): (ids: Option<seq<JsonValue>>)
    ensures ids.Some? <==> forall i :: 0 <= i < |estates| ==> "ID" in estates[i]
    ensures ids.Some? ==> |ids.value| == |estates|
    ensures ids.Some? ==> forall i :: 0 <= i < |estates| ==> ids.value[i] == estates[i]["ID"]
  {
    if |estates| == 0 then Some([])
    else if "ID" !in estates[0] then None
    else
      match AllIds(estates[1..])
      case None => None
      case Some(rest) => Some([estates[0]["ID"]] + rest)
  }

  /** `[all_ids[x:x+ids_per_request] for x in range(0, total, ids_per_request)]`:
      the slice starting at every multiple of ten, clamped at the end. */
  function SplitIds<T>(ids: seq<T>): (batches: seq<seq<T>>)
    ensures forall k :: 0 <= k < |batches| ==> IdsPerRequest * k < |ids|
    ensures forall k :: 0 <= k < |batches| ==> 0 < |batches[k]| <= IdsPerRequest
    ensures forall k :: 0 <= k < |batches| - 1 ==> |batches[k]| == IdsPerRequest
    ensures forall k :: 0 <= k < |batches| ==>
              batches[k] == ids[IdsPerRequest * k .. Min(IdsPerRequest * k + IdsPerRequest, |ids|)]
  {
    seq((|ids| + IdsPerRequest - 1) / IdsPerRequest,
        k requires 0 <= k < (|ids| + IdsPerRequest - 1) / IdsPerRequest =>
          ids[IdsPerRequest * k .. Min(IdsPerRequest * k + IdsPerRequest, |ids|)])
  }

  /** The number of batches is ceil(total / 10): none for no IDs, otherwise
      the least count whose capacity holds every ID. */
  lemma SplitIdsCount<T>(ids: seq<T>)
    ensures |SplitIds(ids)| == 0 <==> |ids| == 0
    ensures |ids| > 0 ==>
              IdsPerRequest * (|SplitIds(ids)| - 1) < |ids| <= IdsPerRequest * |SplitIds(ids)|
  {
  }

  /** The first m batches joined are the first 10*m IDs (or all of them). */
  lemma {:induction false} FlattenPrefix<T>(ids: seq<T>, m: nat)
    requires m <= |SplitIds(ids)|
    ensures Flatten(SplitIds(ids)[..m]) == ids[..Min(IdsPerRequest * m, |ids|)]
  {
    if m > 0 {
      var bs := SplitIds(ids);
      FlattenPrefix(ids, m - 1);
      assert bs[..m][..m - 1] == bs[..m - 1];
      assert IdsPerRequest * (m - 1) < |ids|;
      assert ids[..Min(IdsPerRequest * m, |ids|)]
             == ids[..IdsPerRequest * (m - 1)] + bs[m - 1];
    }
  }

  /** Joining the batches gives back every ID, in order, each once. */
  lemma SplitIdsFlatten<T>(ids: seq<T>)
    ensures Flatten(SplitIds(ids)) == ids
  {
    var bs := SplitIds(ids);
    FlattenPrefix(ids, |bs|);
    assert bs[..|bs|] == bs;
    SplitIdsCount(ids);
  }

  /** The ID list of fetch_real_estates_details cut into request batches. */
  function DetailBatches(estates: seq<JsonObject>): Option<seq<seq<JsonValue>>>
  {
    match AllIds(estates)
    case None => None
    case Some(ids) => Some(SplitIds(ids))
  }

  /** When every estate has an ID, the batches hold exactly the estates' IDs in
      estate order, at most ten per request. */
  lemma DetailBatchesSpec(estates: seq<JsonObject>)
    requires forall i :: 0 <= i < |estates| ==> "ID" in estates[i]
    ensures DetailBatches(estates).Some?
    ensures |Flatten(DetailBatches(estates).value)| == |estates|
    ensures forall i :: 0 <= i < |estates| ==>
              Flatten(DetailBatches(estates).value)[i] == estates[i]["ID"]
  {
    SplitIdsFlatten(AllIds(estates).value);
  }

  /** What print_not_fetched_amount does with a search result. */
  datatype NotFetchedReport =
    | Silent                    // nothing printed
    | Warning(amount: int)      // "<amount> results aren't being fetched ..."
    | CountNotNumeric           // `None - 1000` (or a non-number) raises TypeError

  /** print_not_fetched_amount: nothing for an absent or empty result; otherwise
      a warning exactly when the result count exceeds the cap, reporting the excess. */
  function NotFetchedAmount(results: Option<JsonObject>): (report: NotFetchedReport)
    ensures (results.None? || |results.value| == 0) ==> report == Silent
    ensures report.Warning? <==>
              && results.Some? && |results.value| > 0
              && "QuantidadeResultados" in results.value
              && results.value["QuantidadeResultados"].JsonNumber?
              && results.value["QuantidadeResultados"].n - ResultsCap > 0
    ensures report.Warning? ==>
              report.amount == results.value["QuantidadeResultados"].n - ResultsCap > 0
    ensures report.CountNotNumeric? <==>
              && results.Some? && |results.value| > 0
              && ("QuantidadeResultados" !in results.value
                  || !results.value["QuantidadeResultados"].JsonNumber?)
  {
    if results.None? || |results.value| == 0 then Silent
    else if "QuantidadeResultados" !in results.value then CountNotNumeric
    else
      match results.value["QuantidadeResultados"]
      case JsonOther => CountNotNumeric
      case JsonNumber(n) =>
        var notFetched := n - ResultsCap;
        if notFetched > 0 then Warning(notFetched) else Silent
  }
}
