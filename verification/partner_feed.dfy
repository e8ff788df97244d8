/** The realtime callback of the `usePartners(taskType)` hook. */
module PartnerFeed {
  import opened Js
  import opened Schema
  import opened RowList

  function PartnerId(p: Partner): string
  {
    p.id
  }

  /** The partner's `type` column as text. */
  function PartnerType(p: Partner): Option<string>
  {
    Some(TaskTypeName(p.kind))
  }

  /** The list after a change event: with no task-type filter every event
      is applied; with one, an INSERT or UPDATE of a partner of another type
      is ignored, and so is every DELETE, because the filter reads the empty
      `payload.new` of a DELETE. */
  function OnChange(taskType: Option<string>, prev: seq<Partner>, change: Change<Partner>): (r: seq<Partner>)
    ensures !Present(taskType) ==> r == Apply(prev, change, PartnerId)
    ensures change.Insert? && (!Present(taskType) || Some(TaskTypeName(change.row.kind)) == taskType) ==>
              r == [change.row] + prev
    ensures change.Update? && (!Present(taskType) || Some(TaskTypeName(change.row.kind)) == taskType) ==>
              |r| == |prev| && forall i :: 0 <= i < |prev| ==>
                r[i] == (if prev[i].id == change.row.id then change.row else prev[i])
    ensures (change.Insert? || change.Update?) && Present(taskType) && Some(TaskTypeName(change.row.kind)) != taskType ==>
              r == prev
    ensures change.Delete? && Present(taskType) ==> r == prev
    ensures change.Other? ==> r == prev
  {
    ApplyFiltered(taskType, PartnerType, prev, change, PartnerId)
  }

  /** As written: with a task-type filter set, deleting a partner of that
      very type leaves it in the list. */
  lemma DeleteKeptUnderFilter(p: Partner, rest: seq<Partner>)
    ensures p in OnChange(Some(TaskTypeName(p.kind)), [p] + rest, Delete(p.id))
  {
    assert ([p] + rest)[0] == p;
  }

  /** The callback as evidently intended: a DELETE removes the row whatever
      the filter. */
  function OnChangeFixed(taskType: Option<string>, prev: seq<Partner>, change: Change<Partner>): (r: seq<Partner>)
    ensures change.Delete? ==> forall x :: x in r <==> x in prev && x.id != change.oldId
    ensures !change.Delete? ==> r == OnChange(taskType, prev, change)
  {
    ApplyFilteredFixed(taskType, PartnerType, prev, change, PartnerId)
  }

  /** The list fetched with `.eq("type", taskType)` holds partners of that
      type only, and no event brings in one of another. */
  lemma StaysWithinType(taskType: Option<string>, prev: seq<Partner>, change: Change<Partner>)
    requires Present(taskType) ==> forall i :: 0 <= i < |prev| ==> Some(TaskTypeName(prev[i].kind)) == taskType
    ensures var r := OnChange(taskType, prev, change);
            Present(taskType) ==> forall i :: 0 <= i < |r| ==> Some(TaskTypeName(r[i].kind)) == taskType
    ensures var r := OnChangeFixed(taskType, prev, change);
            Present(taskType) ==> forall i :: 0 <= i < |r| ==> Some(TaskTypeName(r[i].kind)) == taskType
  {
    KeepsMatching(taskType, PartnerType, prev, change, PartnerId);
  }
}
