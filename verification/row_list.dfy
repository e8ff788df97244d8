/** The list update the realtime callbacks of the FAQ, partner and property
    hooks apply to their row lists: INSERT prepends the new row, UPDATE
    replaces the rows with its id, DELETE drops the rows with the old row's
    id. The row type is a parameter and `id` reads a row's primary key. */
module RowList {
  import opened Js

  /** A realtime change event. `payload.new` is the row for INSERT and
      UPDATE and an empty object for DELETE, whose `payload.old` carries the
      deleted row's primary key. Any other event type is kept with whatever
      `payload.new` held. */
  datatype Change<R> =
    | Insert(row: R)
    | Update(row: R)
    | Delete(oldId: string)
    | Other(eventType: string, newRow: Option<R>)

  /** `payload.new` read as a row: absent for a DELETE. */
  function NewRow<R>(c: Change<R>): Option<R>
  {
    match c
    case Insert(row) => Some(row)
    case Update(row) => Some(row)
    case Delete(_) => None
    case Other(_, newRow) => newRow
  }

  /** How many rows of `s` have the primary key `key`. */
  function CountId<R>(s: seq<R>, key: string, id: R -> string): (n: nat)
    ensures n <= |s|
  {
    if s == [] then 0 else (if id(s[0]) == key then 1 else 0) + CountId(s[1..], key, id)
  }

  /** No two rows share a primary key. */
  predicate DistinctIds<R>(s: seq<R>, id: R -> string)
  {
    forall i, j :: 0 <= i < j < |s| ==> id(s[i]) != id(s[j])
  }

  /** `[row, ...prev]`. */
  function Prepend<R>(prev: seq<R>, row: R): (r: seq<R>)
    ensures |r| == |prev| + 1 && r[0] == row && r[1..] == prev
  {
    [row] + prev
  }

  /** `prev.map(x => x.id === row.id ? row : x)`: every row with the new
      row's key becomes the new row, every other row stays where it is. */
  function ReplaceById<R>(prev: seq<R>, row: R, id: R -> string): (r: seq<R>)
    ensures |r| == |prev|
    ensures forall i :: 0 <= i < |prev| && id(prev[i]) == id(row) ==> r[i] == row
    ensures forall i :: 0 <= i < |prev| && id(prev[i]) != id(row) ==> r[i] == prev[i]
  {
    if prev == [] then []
    else [if id(prev[0]) == id(row) then row else prev[0]] + ReplaceById(prev[1..], row, id)
  }

  /** `prev.filter(x => x.id !== key)`: the rows with another key. */
  function RemoveById<R(!new)>(prev: seq<R>, key: string, id: R -> string): (r: seq<R>)
    ensures |r| == |prev| - CountId(prev, key, id)
    ensures forall x :: x in r <==> x in prev && id(x) != key
  {
    if prev == [] then []
    else (if id(prev[0]) == key then [] else [prev[0]]) + RemoveById(prev[1..], key, id)
  }

  /** The kept rows stay in their order: the row at position `i` moves up by
      the number of removed rows before it. */
  lemma {:induction false} RemoveKeepsOrder<R(!new)>(prev: seq<R>, key: string, id: R -> string)
    ensures var r := RemoveById(prev, key, id);
            forall i :: 0 <= i < |prev| && id(prev[i]) != key ==>
              CountId(prev[..i], key, id) <= i < |r| + CountId(prev[..i], key, id)
              && r[i - CountId(prev[..i], key, id)] == prev[i]
  {
    if prev != [] {
      RemoveKeepsOrder(prev[1..], key, id);
      var r := RemoveById(prev, key, id);
      var rest := RemoveById(prev[1..], key, id);
      var head := if id(prev[0]) == key then [] else [prev[0]];
      assert r == head + rest;
      forall i | 0 <= i < |prev| && id(prev[i]) != key
        ensures CountId(prev[..i], key, id) <= i < |r| + CountId(prev[..i], key, id)
        ensures r[i - CountId(prev[..i], key, id)] == prev[i]
      {
        if i == 0 {
          assert prev[..0] == [];
        } else {
          PrefixCount(prev, key, id, i);
          assert prev[i] == prev[1..][i - 1];
        }
      }
    }
  }

  /** Counting over a non-empty prefix of `s` counts its first row, then the
      rest of the prefix. */
  lemma PrefixCount<R>(s: seq<R>, key: string, id: R -> string, i: nat)
    requires 0 < i <= |s|
    ensures CountId(s[..i], key, id) == (if id(s[0]) == key then 1 else 0) + CountId(s[1..][..i - 1], key, id)
  {
    assert s[..i][1..] == s[1..][..i - 1];
  }

  /** The reducer shared by the three hooks, after any filter has passed. */
  function Apply<R(!new)>(prev: seq<R>, change: Change<R>, id: R -> string): (r: seq<R>)
    ensures change.Insert? ==> |r| == |prev| + 1 && r[0] == change.row && r[1..] == prev
    ensures change.Update? ==> |r| == |prev|
    ensures change.Update? ==>
              forall i :: 0 <= i < |prev| ==> r[i] == (if id(prev[i]) == id(change.row) then change.row else prev[i])
    ensures change.Delete? ==> |r| == |prev| - CountId(prev, change.oldId, id)
    ensures change.Delete? ==> forall x :: x in r <==> x in prev && id(x) != change.oldId
    ensures change.Other? ==> r == prev
  {
    match change
    case Insert(row) => Prepend(prev, row)
    case Update(row) => ReplaceById(prev, row, id)
    case Delete(key) => RemoveById(prev, key, id)
    case Other(_, _) => prev
  }

  /** An UPDATE whose key no row has leaves the list as it was. */
  lemma UpdateUnknownIdUnchanged<R(!new)>(prev: seq<R>, row: R, id: R -> string)
    requires forall x <- prev :: id(x) != id(row)
    ensures Apply(prev, Update(row), id) == prev
  {
  }

  /** A DELETE whose key no row has leaves the list as it was. */
  lemma {:induction false} DeleteUnknownIdUnchanged<R(!new)>(prev: seq<R>, key: string, id: R -> string)
    requires forall x <- prev :: id(x) != key
    ensures Apply(prev, Delete(key), id) == prev
  {
    if prev != [] {
      DeleteUnknownIdUnchanged(prev[1..], key, id);
      assert prev == [prev[0]] + prev[1..];
    }
  }

  /** Deleting the key of a row just inserted is deleting it from the list
      as it was before: the two events cancel when the key was new. */
  lemma DeleteUndoesInsert<R(!new)>(prev: seq<R>, row: R, id: R -> string)
    ensures Apply(Apply(prev, Insert(row), id), Delete(id(row)), id) == Apply(prev, Delete(id(row)), id)
    ensures (forall x <- prev :: id(x) != id(row)) ==>
              Apply(Apply(prev, Insert(row), id), Delete(id(row)), id) == prev
  {
    var inserted := [row] + prev;
    assert inserted[0] == row && inserted[1..] == prev;
    assert RemoveById(inserted, id(row), id) == [] + RemoveById(prev, id(row), id);
    if forall x <- prev :: id(x) != id(row) {
      DeleteUnknownIdUnchanged(prev, id(row), id);
    }
  }

  /** Applying the same UPDATE twice is applying it once. */
  lemma UpdateIdempotent<R(!new)>(prev: seq<R>, row: R, id: R -> string)
    ensures Apply(Apply(prev, Update(row), id), Update(row), id) == Apply(prev, Update(row), id)
  {
  }

  /** Applying the same DELETE twice is applying it once. */
  lemma DeleteIdempotent<R(!new)>(prev: seq<R>, key: string, id: R -> string)
    ensures Apply(Apply(prev, Delete(key), id), Delete(key), id) == Apply(prev, Delete(key), id)
  {
    DeleteUnknownIdUnchanged(RemoveById(prev, key, id), key, id);
  }

  /** Dropping rows from a list of rows with distinct keys keeps the keys
      distinct. */
  lemma {:induction false} RemoveKeepsDistinct<R(!new)>(prev: seq<R>, key: string, id: R -> string)
    requires DistinctIds(prev, id)
    ensures DistinctIds(RemoveById(prev, key, id), id)
  {
    if prev != [] {
      var rest := RemoveById(prev[1..], key, id);
      RemoveKeepsDistinct(prev[1..], key, id);
      if id(prev[0]) != key {
        forall x | x in rest
          ensures id(x) != id(prev[0])
        {
          var j :| 0 <= j < |prev[1..]| && prev[1..][j] == x;
          assert prev[j + 1] == x;
        }
      }
    }
  }

  /** Distinct primary keys are an invariant of the reducer, provided an
      INSERT brings a key the list does not hold yet. */
  lemma KeepsDistinctIds<R(!new)>(prev: seq<R>, change: Change<R>, id: R -> string)
    requires DistinctIds(prev, id)
    requires change.Insert? ==> forall x <- prev :: id(x) != id(change.row)
    ensures DistinctIds(Apply(prev, change, id), id)
  {
    match change
    case Insert(row) =>
      var r := Apply(prev, change, id);
      forall i, j | 0 <= i < j < |r|
        ensures id(r[i]) != id(r[j])
      {
        if i == 0 {
          assert r[j] == prev[j - 1];
        } else {
          assert r[i] == prev[i - 1] && r[j] == prev[j - 1];
        }
      }
    case Update(row) =>
    case Delete(key) => RemoveKeepsDistinct(prev, key, id);
    case Other(_, _) =>
  }

  /** The filter of the FAQ and partner callbacks, `!filter ||
      payload.new[column] === filter`: with a filter set, the event passes
      only when `payload.new` is a row whose column holds the filter value.
      A DELETE's `payload.new` is empty, so it never passes a set filter. */
  predicate PassesFilter<R>(filter: Option<string>, column: R -> Option<string>, change: Change<R>)
  {
    !Present(filter) || (NewRow(change).Some? && column(NewRow(change).value) == filter)
  }

  /** Every row of the list holds the filter value in its column, when a
      filter is set. */
  predicate AllMatch<R>(filter: Option<string>, column: R -> Option<string>, s: seq<R>)
  {
    Present(filter) ==> forall i :: 0 <= i < |s| ==> column(s[i]) == filter
  }

  /** The callback of the FAQ and partner hooks: the reducer behind the
      filter. */
  function ApplyFiltered<R(!new)>(filter: Option<string>, column: R -> Option<string>,
                                  prev: seq<R>, change: Change<R>, id: R -> string): (r: seq<R>)
    ensures !Present(filter) ==> r == Apply(prev, change, id)
    ensures Present(filter) && change.Delete? ==> r == prev
    ensures Present(filter) && NewRow(change).Some? && column(NewRow(change).value) == filter ==>
              r == Apply(prev, change, id)
    ensures Present(filter) && NewRow(change).Some? && column(NewRow(change).value) != filter ==> r == prev
    ensures Present(filter) && NewRow(change).None? ==> r == prev
  {
    if PassesFilter(filter, column, change) then Apply(prev, change, id) else prev
  }

  /** The filtered callback as evidently intended: a DELETE carries no new
      row to test, so it is applied whatever the filter; every other event
      is filtered as before. */
  function ApplyFilteredFixed<R(!new)>(filter: Option<string>, column: R -> Option<string>,
                                       prev: seq<R>, change: Change<R>, id: R -> string): (r: seq<R>)
    ensures change.Delete? ==> forall x :: x in r <==> x in prev && id(x) != change.oldId
    ensures !change.Delete? ==> r == ApplyFiltered(filter, column, prev, change, id)
  {
    if change.Delete? || PassesFilter(filter, column, change) then Apply(prev, change, id) else prev
  }

  /** The rows an event can add all pass the filter, so a list holding only
      matching rows keeps holding only matching rows, with the filter as
      written and as corrected. */
  lemma KeepsMatching<R(!new)>(filter: Option<string>, column: R -> Option<string>,
                               prev: seq<R>, change: Change<R>, id: R -> string)
    requires AllMatch(filter, column, prev)
    ensures AllMatch(filter, column, ApplyFiltered(filter, column, prev, change, id))
    ensures AllMatch(filter, column, ApplyFilteredFixed(filter, column, prev, change, id))
  {
    if Present(filter) && PassesFilter(filter, column, change) {
      var r := Apply(prev, change, id);
      forall i | 0 <= i < |r|
        ensures column(r[i]) == filter
      {
        if change.Insert? && i > 0 {
          assert r[i] == prev[i - 1];
        }
      }
    }
    if Present(filter) && change.Delete? {
      var r := Apply(prev, change, id);
      forall i | 0 <= i < |r|
        ensures column(r[i]) == filter
      {
        assert r[i] in prev;
      }
    }
  }
}
