/**
 * The consistency rules `setTicketTypes` applies when the ticket-type
 * catalog is replaced: seats and the selection are rebound by id.
 */
module TicketSync {
  import opened Wrappers
  import opened SeatModel
  import opened Grid

  /** `types.find(t => t.id === id)`: the first entry with that id. */
  function FindById(types: seq<TicketType>, id: string): (r: Option<TicketType>)
    ensures r.None? <==> forall i :: 0 <= i < |types| ==> types[i].id != id
    ensures r.Some? ==> (r.value.id == id &&
      exists i :: 0 <= i < |types| && types[i] == r.value && forall j :: 0 <= j < i ==> types[j].id != id)
  {
    if types == [] then None
    else if types[0].id == id then Some(types[0])
    else
      var r := FindById(types[1..], id);
      if r.Some? then
        var i :| 0 <= i < |types[1..]| && types[1..][i] == r.value && forall j :: 0 <= j < i ==> types[1..][j].id != id;
        assert types[i + 1] == r.value && forall j :: 0 <= j < i + 1 ==> types[j].id != id;
        r
      else r
  }

  /**
   * A seat after the catalog is replaced: a "ticket" seat with a ticket type
   * gets the new entry with the same id, or loses its ticket type.
   */
  function SyncSeat(seat: Seat, types: seq<TicketType>): (s: Seat)
    ensures s.(ticketType := seat.ticketType) == seat
    ensures s.ticketType.Some? ==> seat.ticketType.Some? && s.ticketType.value.id == seat.ticketType.value.id
    ensures s.ticketType.Some? && s != seat ==> s.ticketType.value in types
  {
    if KindId(seat) == Some("ticket") && seat.ticketType.Some? then
      seat.(ticketType := FindById(types, seat.ticketType.value.id))
    else seat
  }

  /** The seat map after `setTicketTypes`: every seat synchronised in place. */
  function SyncAll(seats: map<string, Seat>, types: seq<TicketType>): (r: map<string, Seat>)
    ensures r.Keys == seats.Keys
  {
    map k | k in seats :: SyncSeat(seats[k], types)
  }

  /**
   * The selected ticket type after `setTicketTypes`: a selection is looked up
   * by id in the new catalog (absent if gone); no selection becomes the OLD
   * catalog's first entry.
   */
  function SyncSelection(selected: Option<TicketType>, oldTypes: seq<TicketType>,
                         newTypes: seq<TicketType>): (r: Option<TicketType>)
    ensures selected.Some? && r.Some? ==> r.value in newTypes && r.value.id == selected.value.id
    ensures selected.None? ==> (r.Some? <==> oldTypes != []) && (r.Some? ==> r.value == oldTypes[0])
  {
    if selected.Some? then FindById(newTypes, selected.value.id)
    else if |oldTypes| > 0 then Some(oldTypes[0])
    else None
  }

  /**
   * Only a ticket seat's ticket type changes; it is rebound to a new entry
   * with the same id, or cleared exactly when no new entry has that id.
   */
  lemma SyncSeatSpec(seat: Seat, types: seq<TicketType>)
    ensures var s := SyncSeat(seat, types);
      s.(ticketType := seat.ticketType) == seat &&
      (KindId(seat) == Some("ticket") && seat.ticketType.Some? ==>
        (s.ticketType.Some? ==> s.ticketType.value in types && s.ticketType.value.id == seat.ticketType.value.id) &&
        (s.ticketType.None? <==> forall t :: t in types ==> t.id != seat.ticketType.value.id)) &&
      (!(KindId(seat) == Some("ticket") && seat.ticketType.Some?) ==> s == seat)
  {
    if KindId(seat) == Some("ticket") && seat.ticketType.Some? {
      var id := seat.ticketType.value.id;
      var r := FindById(types, id);
      if r.None? {
        forall t | t in types ensures t.id != id {
          var i :| 0 <= i < |types| && types[i] == t;
        }
      }
    }
  }

  /** Synchronising keeps the grid, the ids and the ticket-only-on-ticket-seats rule. */
  lemma SyncAllKeepsInvariants(seats: map<string, Seat>, types: seq<TicketType>, rows: int, cols: int)
    ensures seats.Keys == GridKeys(rows, cols) ==> SyncAll(seats, types).Keys == GridKeys(rows, cols)
    ensures KeysMatchIds(seats) ==> KeysMatchIds(SyncAll(seats, types))
    ensures TicketOnlyOnTicketSeats(seats) ==> TicketOnlyOnTicketSeats(SyncAll(seats, types))
  {
  }

  /** After synchronising, no seat refers to a ticket-type id the new catalog lacks. */
  lemma SyncAllNoDanglingTickets(seats: map<string, Seat>, types: seq<TicketType>)
    requires TicketOnlyOnTicketSeats(seats)
    ensures forall k :: k in SyncAll(seats, types) && SyncAll(seats, types)[k].ticketType.Some? ==>
      SyncAll(seats, types)[k].ticketType.value in types
  {
    forall k | k in SyncAll(seats, types) && SyncAll(seats, types)[k].ticketType.Some?
      ensures SyncAll(seats, types)[k].ticketType.value in types
    {
      SyncSeatSpec(seats[k], types);
    }
  }

  /** A kept selection is rebound to the new entry with its id, or cleared if that id is gone. */
  lemma SyncSelectionSpec(selected: Option<TicketType>, oldTypes: seq<TicketType>, newTypes: seq<TicketType>)
    ensures var r := SyncSelection(selected, oldTypes, newTypes);
      (selected.Some? && r.Some? ==> r.value in newTypes && r.value.id == selected.value.id) &&
      (selected.Some? ==> (r.None? <==> forall t :: t in newTypes ==> t.id != selected.value.id)) &&
      (selected.None? ==> r == if oldTypes == [] then None else Some(oldTypes[0]))
  {
    if selected.Some? {
      var r := FindById(newTypes, selected.value.id);
      if r.None? {
        forall t | t in newTypes ensures t.id != selected.value.id {
          var i :| 0 <= i < |newTypes| && newTypes[i] == t;
        }
      }
    }
  }

  /**
   * With nothing selected, replacing the catalog selects the old catalog's
   * first entry even when the new catalog no longer contains it.
   */
  lemma SyncSelectionCanDangle(oldTypes: seq<TicketType>, newTypes: seq<TicketType>)
    requires oldTypes != [] && oldTypes[0] !in newTypes
    ensures SyncSelection(None, oldTypes, newTypes) == Some(oldTypes[0])
    ensures SyncSelection(None, oldTypes, newTypes).value !in newTypes
  {
  }

  /** The default catalog emptied with nothing selected: the selection is "regular", no longer in the catalog. */
  lemma SyncSelectionDanglesOnDefaults()
    ensures SyncSelection(None, DefaultTicketTypes, []) == Some(RegularTicket)
  {
    SyncSelectionCanDangle(DefaultTicketTypes, []);
  }
}
