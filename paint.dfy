/**
 * The paint rule of `updateSeat`: how the selected brush (a seat kind and,
 * for the "ticket" kind, a ticket type) changes one cell of the seat map.
 */
module Painting {
  import opened Wrappers
  import opened Labels
  import opened SeatModel
  import opened Grid

  /** The ticket type a painted seat receives: the selected one for "ticket", none otherwise. */
  function BrushTicket(brush: SeatType, ticket: Option<TicketType>): Option<TicketType> {
    if brush.id == "ticket" then ticket else None
  }

  /**
   * The seat map after painting (row, col). The rules apply in order: no brush
   * is a no-op; the "none" brush always writes an empty seat; a cell that
   * already has the brush's kind, or a "brick" cell under the "ticket" brush,
   * is left alone; otherwise the kind and ticket type are overwritten (and a
   * missing cell is created).
   */
  function Paint(seats: map<string, Seat>, brush: Option<SeatType>, ticket: Option<TicketType>,
                 row: nat, col: nat): (r: map<string, Seat>)
    ensures seats.Keys <= r.Keys <= seats.Keys + {SeatId(row, col)}
    ensures forall k :: k in seats && k != SeatId(row, col) ==> r[k] == seats[k]
  {
    if brush.None? then seats
    else
      var id := SeatId(row, col);
      if brush.value.id == "none" then
        seats[id := EmptySeat(row, col)]
      else if id in seats then
        if KindId(seats[id]) == Some(brush.value.id) then seats
        else if KindId(seats[id]) == Some("brick") && brush.value.id == "ticket" then seats
        else seats[id := seats[id].(seatType := brush, ticketType := BrushTicket(brush.value, ticket))]
      else
        seats[id := Seat(id, row, col, Label(row, col), brush, BrushTicket(brush.value, ticket))]
  }

  /** The three cases in which painting leaves the map as it was. */
  lemma PaintNoOps(seats: map<string, Seat>, brush: Option<SeatType>, ticket: Option<TicketType>, row: nat, col: nat)
    ensures brush.None? ==> Paint(seats, brush, ticket, row, col) == seats
    ensures brush.Some? && brush.value.id != "none" && SeatId(row, col) in seats &&
            KindId(seats[SeatId(row, col)]) == Some(brush.value.id) ==>
            Paint(seats, brush, ticket, row, col) == seats
    ensures brush.Some? && brush.value.id == "ticket" && SeatId(row, col) in seats &&
            KindId(seats[SeatId(row, col)]) == Some("brick") ==>
            Paint(seats, brush, ticket, row, col) == seats
  {
  }

  /** The "none" brush always leaves an empty seat with the cell's own id and label. */
  lemma PaintErase(seats: map<string, Seat>, brush: SeatType, ticket: Option<TicketType>, row: nat, col: nat)
    requires brush.id == "none"
    ensures var r := Paint(seats, Some(brush), ticket, row, col);
      r.Keys == seats.Keys + {SeatId(row, col)} &&
      r[SeatId(row, col)] == Seat(SeatId(row, col), row, col, Label(row, col), None, None)
  {
  }

  /** Erasing twice gives the same map as erasing once. */
  lemma EraseIdempotent(seats: map<string, Seat>, brush: SeatType, ticket: Option<TicketType>, row: nat, col: nat)
    requires brush.id == "none"
    ensures var once := Paint(seats, Some(brush), ticket, row, col);
      Paint(once, Some(brush), ticket, row, col) == once
  {
  }

  /**
   * Outside the no-op cases, painting gives the cell the brush's kind and the
   * brush's ticket type, keeps the rest of an existing record, and builds a new
   * record for a missing cell.
   */
  lemma PaintApplies(seats: map<string, Seat>, brush: SeatType, ticket: Option<TicketType>, row: nat, col: nat)
    requires brush.id != "none"
    requires SeatId(row, col) in seats ==>
      KindId(seats[SeatId(row, col)]) != Some(brush.id) &&
      !(KindId(seats[SeatId(row, col)]) == Some("brick") && brush.id == "ticket")
    ensures var r, id := Paint(seats, Some(brush), ticket, row, col), SeatId(row, col);
      r.Keys == seats.Keys + {id} &&
      r[id].seatType == Some(brush) && KindId(r[id]) == Some(brush.id) &&
      r[id].ticketType == (if brush.id == "ticket" then ticket else None) &&
      (id in seats ==> r[id].(seatType := seats[id].seatType, ticketType := seats[id].ticketType) == seats[id]) &&
      (id !in seats ==> r[id].id == id && r[id].row == row && r[id].col == col && r[id].seatLabel == Label(row, col))
  {
  }

  /** Painting a cell of no kind with a kind other than "none" is one field update. */
  lemma PaintBlankCell(seats: map<string, Seat>, brush: SeatType, ticket: Option<TicketType>, row: nat, col: nat)
    requires SeatId(row, col) in seats && seats[SeatId(row, col)].seatType.None?
    requires brush.id != "none"
    ensures Paint(seats, Some(brush), ticket, row, col)
         == seats[SeatId(row, col) := seats[SeatId(row, col)].(seatType := Some(brush), ticketType := BrushTicket(brush, ticket))]
  {
  }

  /** Painting an in-range cell keeps the seat map covering exactly the grid. */
  lemma PaintKeepsGrid(seats: map<string, Seat>, brush: Option<SeatType>, ticket: Option<TicketType>,
                       row: nat, col: nat, rows: int, cols: int)
    requires seats.Keys == GridKeys(rows, cols)
    requires row < rows && col < cols
    ensures Paint(seats, brush, ticket, row, col).Keys == GridKeys(rows, cols)
  {
    GridKeysMember(row, col, rows, cols);
  }

  /** Painting keeps every record filed under its own id. */
  lemma PaintKeepsIds(seats: map<string, Seat>, brush: Option<SeatType>, ticket: Option<TicketType>, row: nat, col: nat)
    requires KeysMatchIds(seats)
    ensures KeysMatchIds(Paint(seats, brush, ticket, row, col))
  {
  }

  /** A paint never gives a ticket type to a seat that is not of kind "ticket". */
  lemma PaintKeepsTicketsOnTicketSeats(seats: map<string, Seat>, brush: Option<SeatType>, ticket: Option<TicketType>,
                                       row: nat, col: nat)
    requires TicketOnlyOnTicketSeats(seats)
    ensures TicketOnlyOnTicketSeats(Paint(seats, brush, ticket, row, col))
  {
  }

  /**
   * A brick resists the ticket brush; erasing it first lets the ticket brush
   * through.
   */
  lemma BrickResistsTicket(seats: map<string, Seat>, ticket: Option<TicketType>, row: nat, col: nat)
    requires SeatId(row, col) in seats && KindId(seats[SeatId(row, col)]) == Some("brick")
    ensures Paint(seats, Some(TicketSeatType), ticket, row, col) == seats
    ensures var erased := Paint(seats, Some(NoneSeatType), ticket, row, col);
      var r := Paint(erased, Some(TicketSeatType), ticket, row, col);
      r[SeatId(row, col)].seatType == Some(TicketSeatType) && r[SeatId(row, col)].ticketType == ticket
  {
  }

  /** Repainting a ticket seat with another ticket type keeps its old ticket type. */
  lemma TicketRepaintKeepsTicketType(seats: map<string, Seat>, ticket: Option<TicketType>, row: nat, col: nat)
    requires SeatId(row, col) in seats && KindId(seats[SeatId(row, col)]) == Some("ticket")
    ensures Paint(seats, Some(TicketSeatType), ticket, row, col)[SeatId(row, col)].ticketType
         == seats[SeatId(row, col)].ticketType
  {
  }
}
