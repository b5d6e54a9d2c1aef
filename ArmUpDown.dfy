/** The arm raise/lower count the page shows: the `armUpDown` counter of
    the last index record, when the records have arrived and there is at
    least one. */
module ArmUpDown {
  import opened Wrappers
  import opened Types

  /** The counter shown on the page: none while the records have not
      arrived or when there are none, and otherwise the `armUpDown` field of
      the last record. */
  function LastArmUpDown(indexData: Option<seq<IndexData>>): (r: Option<int>)
    ensures r.Some? <==> indexData.Some? && |indexData.value| > 0
    ensures r.Some? ==> r.value == indexData.value[|indexData.value| - 1].armUpDown
  {
    match indexData
    case None => None
    case Some(records) => if records == [] then None else Some(records[|records| - 1].armUpDown)
  }

  /** The counter is cumulative: it never goes down from one record to the
      next. */
  predicate NonDecreasing(records: seq<IndexData>)
  {
    forall k :: 0 < k < |records| ==> records[k - 1].armUpDown <= records[k].armUpDown
  }

  /** For a cumulative counter the value shown is the largest one in the
      batch. */
  lemma {:induction false} LastIsLargest(records: seq<IndexData>)
    requires records != []
    requires NonDecreasing(records)
    ensures LastArmUpDown(Some(records)).Some?
    ensures forall k :: 0 <= k < |records| ==> records[k].armUpDown <= LastArmUpDown(Some(records)).value
  {
    var n := |records| - 1;
    if n > 0 {
      var init := records[..n];
      assert forall k :: 0 <= k < n ==> init[k] == records[k];
      LastIsLargest(init);
    }
  }
}
