/** The realtime callback of the `useProperties` hook, which has no filter. */
module PropertyFeed {
  import opened Schema
  import opened RowList

  function PropertyId(p: Property): string
  {
    p.id
  }

  /** The list after a change event: an INSERT puts the new property first,
      an UPDATE replaces the properties with its id in place, a DELETE drops
      the properties with the old row's id and keeps the others in order, and
      any other event changes nothing. */
  function OnChange(prev: seq<Property>, change: Change<Property>): (r: seq<Property>)
    ensures change.Insert? ==> |r| == |prev| + 1 && r[0] == change.row && r[1..] == prev
    ensures change.Update? ==>
              |r| == |prev| && forall i :: 0 <= i < |prev| ==>
                r[i] == (if prev[i].id == change.row.id then change.row else prev[i])
    ensures change.Delete? ==> |r| == |prev| - CountId(prev, change.oldId, PropertyId)
    ensures change.Delete? ==> forall x :: x in r <==> x in prev && x.id != change.oldId
    ensures change.Other? ==> r == prev
  {
    Apply(prev, change, PropertyId)
  }

  /** An UPDATE or DELETE for an id the list does not hold leaves it as it
      was. */
  lemma UnknownIdUnchanged(prev: seq<Property>, change: Change<Property>)
    requires change.Update? ==> forall x <- prev :: x.id != change.row.id
    requires change.Delete? ==> forall x <- prev :: x.id != change.oldId
    requires change.Update? || change.Delete?
    ensures OnChange(prev, change) == prev
  {
    if change.Delete? {
      DeleteUnknownIdUnchanged(prev, change.oldId, PropertyId);
    }
  }
}
