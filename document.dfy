/**
 * The export/import document: `{rows, cols, seatTypes, ticketTypes, seats}`,
 * with the seat map flattened to a list, and how import re-keys that list.
 */
module Serializer {
  import opened SeatModel

  /** A document field: a value of the expected JSON type, or anything else (a missing key included). */
  datatype Field<T> = Present(value: T) | WrongType

  datatype Document = Document(
    rows: Field<int>,
    cols: Field<int>,
    seatTypes: Field<seq<SeatType>>,
    ticketTypes: Field<seq<TicketType>>,
    seats: Field<seq<Seat>>)

  /** The import's check: rows and cols are numbers, the other three are arrays. */
  predicate WellTyped(d: Document) {
    d.rows.Present? && d.cols.Present? && d.seatTypes.Present? && d.ticketTypes.Present? && d.seats.Present?
  }

  /** The ids of the seats in a list. */
  function IdsOf(list: seq<Seat>): set<string> {
    set i | 0 <= i < |list| :: list[i].id
  }

  /**
   * The seat map import builds: `seatsObj[seat.id] = seat` for each seat in
   * order.
   */
  function IndexById(list: seq<Seat>): (m: map<string, Seat>)
    ensures forall k :: k in m ==> m[k].id == k && m[k] in list
  {
    if list == [] then map[]
    else IndexById(list[..|list| - 1])[list[|list| - 1].id := list[|list| - 1]]
  }

  /** Every id of the list is a key, and every record is filed under its own id. */
  lemma {:induction false} IndexByIdKeys(list: seq<Seat>)
    ensures IndexById(list).Keys == IdsOf(list)
    ensures KeysMatchIds(IndexById(list))
  {
    if list != [] {
      var init, last := list[..|list| - 1], list[|list| - 1];
      IndexByIdKeys(init);
      forall x | x in IdsOf(list) ensures x in IdsOf(init) + {last.id} {
        var i :| 0 <= i < |list| && list[i].id == x;
        if i < |init| { assert init[i].id == x; }
      }
      forall x | x in IdsOf(init) ensures x in IdsOf(list) {
        var i :| 0 <= i < |init| && init[i].id == x;
        assert list[i].id == x;
      }
    }
  }

  /** A seat whose id does not occur later in the list is the one stored under it. */
  lemma {:induction false} IndexByIdLastWins(list: seq<Seat>, i: nat)
    requires i < |list|
    requires forall j :: i < j < |list| ==> list[j].id != list[i].id
    ensures list[i].id in IndexById(list) && IndexById(list)[list[i].id] == list[i]
  {
    var init := list[..|list| - 1];
    if i < |init| {
      assert init[i] == list[i];
      assert forall j :: i < j < |init| ==> init[j] == list[j];
      IndexByIdLastWins(init, i);
    }
  }

  /**
   * `list` lists the records of `m` one per key, in the order `order` of
   * distinct keys: what `Object.values` gives.
   */
  ghost predicate Enumerates(list: seq<Seat>, order: seq<string>, m: map<string, Seat>) {
    && |order| == |list|
    && (forall i, j :: 0 <= i < j < |order| ==> order[i] != order[j])
    && (forall i :: 0 <= i < |order| ==> order[i] in m && list[i] == m[order[i]])
    && (forall k :: k in m ==> k in order)
  }

  lemma {:induction false} DistinctSize(order: seq<string>)
    requires forall i, j :: 0 <= i < j < |order| ==> order[i] != order[j]
    ensures |set k | k in order| == |order|
  {
    if order != [] {
      var init := order[..|order| - 1];
      DistinctSize(init);
      assert (set k | k in order) == (set k | k in init) + {order[|order| - 1]};
    }
  }

  /** An enumeration has exactly one entry per key. */
  lemma EnumerationSize(list: seq<Seat>, order: seq<string>, m: map<string, Seat>)
    requires Enumerates(list, order, m)
    ensures |list| == |m|
  {
    DistinctSize(order);
    assert (set k | k in order) == m.Keys;
  }

  /**
   * Re-keying an enumeration of a map whose keys are its records' ids gives
   * the map back: import(export()) restores the seats.
   */
  lemma IndexByIdOfEnumeration(list: seq<Seat>, order: seq<string>, m: map<string, Seat>)
    requires Enumerates(list, order, m) && KeysMatchIds(m)
    ensures IndexById(list) == m
  {
    var r := IndexById(list);
    IndexByIdKeys(list);
    assert forall i :: 0 <= i < |list| ==> list[i].id == order[i];
    forall k | k in m ensures k in r && r[k] == m[k] {
      var i :| 0 <= i < |order| && order[i] == k;
      IndexByIdLastWins(list, i);
    }
    forall k | k in r ensures k in m {
      var i :| 0 <= i < |list| && list[i].id == k;
    }
  }
}
