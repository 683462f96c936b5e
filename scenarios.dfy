/**
 * Call sequences a client makes on the store, and what the editor promises
 * about them: a drag gesture, a grow-and-shrink resize, a deleted ticket type
 * orphaning a seat, and export followed by import.
 */
module Scenarios {
  import opened Wrappers
  import opened Labels
  import opened SeatModel
  import opened Grid
  import opened Painting
  import opened TicketSync
  import opened Serializer
  import opened SeatMapStore

  /** A seat after the "ticket" brush with ticket type `t`. */
  function WithTicket(s: Seat, t: TicketType): Seat {
    s.(seatType := Some(TicketSeatType), ticketType := Some(t))
  }

  /** The store is in edit mode with the brush "ticket" / `t`. */
  ghost predicate TicketBrush(m: SeatMap, t: TicketType)
    reads m
  {
    m.Valid() && m.mode == Edit && m.selectedSeatType == Some(TicketSeatType) && m.selectedTicketType == Some(t)
  }

  /**
   * The pointer reaches the cell (row, col) of no kind, either by pressing
   * the button on it or by entering it with the button held: the cell takes
   * the brush, drawing is on, and nothing else changes.
   */
  method PointerOver(m: SeatMap, t: TicketType, row: nat, col: nat, press: bool)
    requires TicketBrush(m, t) && row < m.rows && col < m.cols && (press || m.isDrawing)
    requires SeatId(row, col) in m.seats && m.seats[SeatId(row, col)].seatType.None?
    modifies m
    ensures TicketBrush(m, t) && m.isDrawing && m.rows == old(m.rows) && m.cols == old(m.cols)
    ensures m.seats == old(m.seats)[SeatId(row, col) := WithTicket(old(m.seats)[SeatId(row, col)], t)]
  {
    PaintBlankCell(m.seats, TicketSeatType, Some(t), row, col);
    if press {
      m.MouseDown(row, col);
    } else {
      m.MouseEnter(row, col);
    }
  }

  /**
   * Press on (row, col), enter (row, col+1) and (row, col+2), release, then
   * enter (row, col+3): exactly the three cells of the drag take the brush, and
   * the enter after the release changes nothing.
   */
  method Drag(m: SeatMap, t: TicketType, row: nat, col: nat)
    requires TicketBrush(m, t) && !m.isDrawing && row < m.rows && col + 3 < m.cols
    requires forall c: nat :: col <= c < col + 3 ==> SeatId(row, c) in m.seats && m.seats[SeatId(row, c)].seatType.None?
    modifies m
    ensures TicketBrush(m, t) && !m.isDrawing
    ensures m.rows == old(m.rows) && m.cols == old(m.cols)
    ensures m.seats == old(m.seats)[SeatId(row, col) := WithTicket(old(m.seats)[SeatId(row, col)], t)]
                                   [SeatId(row, col + 1) := WithTicket(old(m.seats)[SeatId(row, col + 1)], t)]
                                   [SeatId(row, col + 2) := WithTicket(old(m.seats)[SeatId(row, col + 2)], t)]
  {
    SeatIdEq(row, col, row, col + 1);
    SeatIdEq(row, col, row, col + 2);
    SeatIdEq(row, col + 1, row, col + 2);
    assert SeatId(row, col) in m.seats && m.seats[SeatId(row, col)].seatType.None?;
    assert SeatId(row, col + 1) in m.seats && m.seats[SeatId(row, col + 1)].seatType.None?;
    assert SeatId(row, col + 2) in m.seats && m.seats[SeatId(row, col + 2)].seatType.None?;
    PointerOver(m, t, row, col, true);
    PointerOver(m, t, row, col + 1, false);
    PointerOver(m, t, row, col + 2, false);
    m.MouseUp();
    ghost var released := m.seats;
    m.MouseEnter(row, col + 3);
    assert m.seats == released;
  }

  /** On a grid of empty seats, the drag of `Drag` over row 0 leaves exactly its three cells painted. */
  lemma DragOverEmptyRow(start: map<string, Seat>, seats: map<string, Seat>, rows: int, cols: int, t: TicketType)
    requires 1 <= rows && 3 <= cols
    requires forall r: nat, c: nat :: r < rows && c < cols ==> SeatId(r, c) in start && start[SeatId(r, c)] == EmptySeat(r, c)
    requires seats == start[SeatId(0, 0) := WithTicket(start[SeatId(0, 0)], t)]
                           [SeatId(0, 1) := WithTicket(start[SeatId(0, 1)], t)]
                           [SeatId(0, 2) := WithTicket(start[SeatId(0, 2)], t)]
    ensures forall r: nat, c: nat :: r < rows && c < cols ==>
      SeatId(r, c) in seats &&
      seats[SeatId(r, c)] == if r == 0 && c < 3 then WithTicket(EmptySeat(r, c), t) else EmptySeat(r, c)
  {
    forall r: nat, c: nat | r < rows && c < cols
      ensures SeatId(r, c) in seats &&
        seats[SeatId(r, c)] == if r == 0 && c < 3 then WithTicket(EmptySeat(r, c), t) else EmptySeat(r, c)
    {
      SeatIdEq(r, c, 0, 0);
      SeatIdEq(r, c, 0, 1);
      SeatIdEq(r, c, 0, 2);
    }
  }

  /**
   * On a new store, entering edit mode picks the brush "ticket" / "regular"
   * by the fallbacks, and the drag over (0,0), (0,1), (0,2) paints exactly
   * those cells.
   */
  method FirstDrag() returns (m: SeatMap)
    ensures fresh(m) && m.Valid() && !m.isDrawing
    ensures forall r: nat, c: nat :: r < m.rows && c < m.cols ==>
      SeatId(r, c) in m.seats &&
      m.seats[SeatId(r, c)] == if r == 0 && c < 3 then WithTicket(EmptySeat(r, c), RegularTicket) else EmptySeat(r, c)
  {
    m := CreateStore();
    ghost var start := m.seats;
    var ok := m.SetMode(Edit);
    Drag(m, RegularTicket, 0, 0);
    DragOverEmptyRow(start, m.seats, m.rows, m.cols, RegularTicket);
  }

  /**
   * Growing the grid to rows2 x cols2 and shrinking it back, one dimension at
   * a time as the settings form does, gives back the same seat map.
   */
  method GrowThenShrink(m: SeatMap, rows2: int, cols2: int)
    requires m.Valid() && m.GridExact() && m.rows <= rows2 && m.cols <= cols2
    modifies m
    ensures m.Valid() && m.GridExact()
    ensures m.rows == old(m.rows) && m.cols == old(m.cols) && m.seats == old(m.seats)
  {
    var rows, cols := m.rows, m.cols;
    ghost var start := m.seats;
    m.SetRows(rows2);
    ghost var taller := m.seats;
    m.SetCols(cols2);
    GridKeysGrow(rows, cols, rows2, cols);
    RebuildTwice(start, taller, m.seats, rows2, cols, rows2, cols2);
    ghost var grown := m.seats;
    m.SetRows(rows);
    GridKeysGrow(rows, cols, rows2, cols2);
    RebuildTwice(start, grown, m.seats, rows2, cols2, rows, cols2);
    ghost var wide := m.seats;
    m.SetCols(cols);
    GridKeysGrow(rows, cols, rows, cols2);
    RebuildTwice(start, wide, m.seats, rows, cols2, rows, cols);
    RebuildExact(m.seats, start, rows, cols);
  }

  /**
   * Replacing the catalog by one without the ticket type of a ticket seat
   * keeps the seat's kind and clears its ticket type; a selection of that
   * ticket type is cleared too.
   */
  method DropTicketType(m: SeatMap, types: seq<TicketType>, id: string)
    requires m.Valid() && id in m.seats && m.seats[id].seatType == Some(TicketSeatType)
    requires m.seats[id].ticketType.Some?
    requires forall t :: t in types ==> t.id != m.seats[id].ticketType.value.id
    modifies m
    ensures m.Valid() && m.ticketTypes == types && m.seats.Keys == old(m.seats.Keys)
    ensures m.seats[id] == old(m.seats[id]).(ticketType := None)
    ensures old(m.selectedTicketType) == old(m.seats[id].ticketType) ==> m.selectedTicketType == None
  {
    SyncSeatSpec(m.seats[id], types);
    SyncSelectionSpec(m.selectedTicketType, m.ticketTypes, types);
    m.SetTicketTypes(types);
  }

  /**
   * A seat painted "ticket" / "vip" on a new store keeps its kind but loses
   * its ticket type, and the selection is cleared, when the catalog is cut
   * down to "regular".
   */
  method DeletedTicketTypeOrphansSeat() returns (m: SeatMap)
    ensures fresh(m) && m.Valid() && m.ticketTypes == [RegularTicket] && m.selectedTicketType == None
    ensures SeatId(0, 0) in m.seats
    ensures m.seats[SeatId(0, 0)].seatType == Some(TicketSeatType) && m.seats[SeatId(0, 0)].ticketType == None
  {
    m := CreateStore();
    var ok := m.SetMode(Edit);
    m.SetSelectedTicketType(Some(VipTicket));
    PointerOver(m, VipTicket, 0, 0, true);
    m.MouseUp();
    DropTicketType(m, [RegularTicket], SeatId(0, 0));
  }

  /**
   * Importing the store's own export restores its dimensions, catalogs and
   * seat map; the selections are cleared and the mode returns to normal.
   */
  method ExportThenImport(m: SeatMap)
    requires m.Valid()
    modifies m
    ensures m.Valid()
    ensures m.rows == old(m.rows) && m.cols == old(m.cols)
    ensures m.seatTypes == old(m.seatTypes) && m.ticketTypes == old(m.ticketTypes)
    ensures m.seats == old(m.seats) && m.isDrawing == old(m.isDrawing)
    ensures m.mode == Normal && m.selectedSeatType == None && m.selectedTicketType == None
  {
    var doc, order := m.ExportSeats();
    IndexByIdOfEnumeration(doc.seats.value, order, m.seats);
    var ok := m.ImportSeats(Some(doc));
  }

  /**
   * Import can break the rule that only ticket seats carry a ticket type: a
   * document may list a brick seat with a ticket type, and a later sync of
   * the ticket catalog leaves that ticket type in place, even when the
   * catalog becomes empty.
   */
  lemma ImportedBrickKeepsTicket()
    ensures var s := Seat(SeatId(0, 0), 0, 0, Label(0, 0), Some(BrickSeatType), Some(VipTicket));
      !TicketOnlyOnTicketSeats(IndexById([s])) &&
      SyncAll(IndexById([s]), [])[SeatId(0, 0)].ticketType == Some(VipTicket)
  {
    var s := Seat(SeatId(0, 0), 0, 0, Label(0, 0), Some(BrickSeatType), Some(VipTicket));
    assert IndexById([s])[SeatId(0, 0)] == s;
  }
}
