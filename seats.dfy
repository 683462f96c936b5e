/**
 * The records the seat map stores: seat kinds ("type" in the store), ticket
 * types, seats, the editing mode, and the built-in catalogs.
 */
module SeatModel {
  import opened Wrappers
  import opened Labels

  /** A structural seat kind: "ticket", "brick" or "none" in the default catalog. */
  datatype SeatType = SeatType(id: string, name: string)

  /** A sellable ticket category (`label` in the store, a reserved word in Dafny). */
  datatype TicketType = TicketType(id: string, name: string, color: string, shortLabel: string)

  /**
   * One cell of the grid. `seatType` is the store's optional `type` field;
   * `null` and `undefined` are both None. `seatLabel` is the store's `label`.
   */
  datatype Seat = Seat(
    id: string,
    row: int,
    col: int,
    seatLabel: JsString,
    seatType: Option<SeatType>,
    ticketType: Option<TicketType>)

  datatype Mode = Normal | Grep | Edit

  const TicketSeatType := SeatType("ticket", "Seat")
  const BrickSeatType := SeatType("brick", "Brick")
  const NoneSeatType := SeatType("none", "None")

  const DefaultRows := 10
  const DefaultCols := 26

  const DefaultSeatTypes := [TicketSeatType, BrickSeatType, NoneSeatType]
  const RegularTicket := TicketType("regular", "Regular", "#03dbfc", "R")
  const VipTicket := TicketType("vip", "VIP", "#fca503", "V")
  const DefaultTicketTypes := [RegularTicket, VipTicket]

  /** `seat.type?.id`: the id of the seat's kind, if it has one. */
  function KindId(s: Seat): (r: Option<string>) {
    if s.seatType.Some? then Some(s.seatType.value.id) else None
  }

  /** The record a grid rebuild creates for a coordinate it has no seat for. */
  function EmptySeat(row: nat, col: nat): (s: Seat) {
    Seat(SeatId(row, col), row, col, Label(row, col), None, None)
  }

  /** Every entry of the seat map is filed under its own id. */
  ghost predicate KeysMatchIds(seats: map<string, Seat>) {
    forall k :: k in seats ==> seats[k].id == k
  }

  /** Only seats of kind "ticket" carry a ticket type. */
  ghost predicate TicketOnlyOnTicketSeats(seats: map<string, Seat>) {
    forall k :: k in seats && seats[k].ticketType.Some? ==> KindId(seats[k]) == Some("ticket")
  }
}
