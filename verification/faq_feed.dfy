/** The realtime callback of the `useFAQ(propertyId)` hook. */
module FaqFeed {
  import opened Js
  import opened Schema
  import opened RowList

  function FaqId(f: Faq): string
  {
    f.id
  }

  function FaqProperty(f: Faq): Option<string>
  {
    f.propertyId
  }

  /** The list after a change event: with no property filter every event
      is applied; with one, an INSERT or UPDATE of a FAQ of another property
      is ignored, and so is every DELETE, because the filter reads the
      empty `payload.new` of a DELETE. */
  function OnChange(propertyId: Option<string>, prev: seq<Faq>, change: Change<Faq>): (r: seq<Faq>)
    ensures !Present(propertyId) ==> r == Apply(prev, change, FaqId)
    ensures change.Insert? && (!Present(propertyId) || change.row.propertyId == propertyId) ==>
              r == [change.row] + prev
    ensures change.Update? && (!Present(propertyId) || change.row.propertyId == propertyId) ==>
              |r| == |prev| && forall i :: 0 <= i < |prev| ==>
                r[i] == (if prev[i].id == change.row.id then change.row else prev[i])
    ensures (change.Insert? || change.Update?) && Present(propertyId) && change.row.propertyId != propertyId ==>
              r == prev
    ensures change.Delete? && Present(propertyId) ==> r == prev
    ensures change.Other? ==> r == prev
  {
    ApplyFiltered(propertyId, FaqProperty, prev, change, FaqId)
  }

  /** As written: with a property filter set, deleting a FAQ of that very
      property leaves it in the list. */
  lemma DeleteKeptUnderFilter(f: Faq, rest: seq<Faq>)
    requires Present(f.propertyId)
    ensures f in OnChange(f.propertyId, [f] + rest, Delete(f.id))
  {
    assert ([f] + rest)[0] == f;
  }

  /** The callback as evidently intended: a DELETE removes the row whatever
      the filter. */
  function OnChangeFixed(propertyId: Option<string>, prev: seq<Faq>, change: Change<Faq>): (r: seq<Faq>)
    ensures change.Delete? ==> forall x :: x in r <==> x in prev && x.id != change.oldId
    ensures !change.Delete? ==> r == OnChange(propertyId, prev, change)
  {
    ApplyFilteredFixed(propertyId, FaqProperty, prev, change, FaqId)
  }

  /** The list fetched with `.eq("property_id", propertyId)` holds FAQs of
      that property only, and no event brings in one of another. */
  lemma StaysWithinProperty(propertyId: Option<string>, prev: seq<Faq>, change: Change<Faq>)
    requires Present(propertyId) ==> forall i :: 0 <= i < |prev| ==> prev[i].propertyId == propertyId
    ensures var r := OnChange(propertyId, prev, change);
            Present(propertyId) ==> forall i :: 0 <= i < |r| ==> r[i].propertyId == propertyId
    ensures var r := OnChangeFixed(propertyId, prev, change);
            Present(propertyId) ==> forall i :: 0 <= i < |r| ==> r[i].propertyId == propertyId
  {
    KeepsMatching(propertyId, FaqProperty, prev, change, FaqId);
  }
}
