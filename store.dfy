/**
 * The seat-map store: one object holding the grid, the two catalogs and the
 * interaction state, with the store's actions as methods, and the drag-paint
 * gesture handlers a seat cell binds to its mouse events.
 */
module SeatMapStore {
  import opened Wrappers
  import opened Labels
  import opened SeatModel
  import opened Grid
  import opened Painting
  import opened TicketSync
  import opened Serializer

  /**
   * The ticket type selected after the seat kind `kind` is selected: the
   * "ticket" kind with no ticket type selected picks the catalog's first entry
   * (none if the catalog is empty); anything else keeps the selection.
   */
  function TicketAfterKindSelect(kind: SeatType, selected: Option<TicketType>,
                                 catalog: seq<TicketType>): (r: Option<TicketType>)
    ensures selected.Some? ==> r == selected
    ensures kind.id != "ticket" ==> r == selected
    ensures kind.id == "ticket" && selected.None? ==> (r.Some? <==> catalog != []) && (r.Some? ==> r.value == catalog[0])
  {
    if kind.id == "ticket" && selected.None? then
      if catalog == [] then None else Some(catalog[0])
    else selected
  }

  class SeatMap {
    var rows: int
    var cols: int
    var seats: map<string, Seat>
    var mode: Mode
    var seatTypes: seq<SeatType>
    var ticketTypes: seq<TicketType>
    var selectedSeatType: Option<SeatType>
    var selectedTicketType: Option<TicketType>
    var isDrawing: bool

    /** Every seat is filed under its own id. Every action keeps this. */
    ghost predicate Valid()
      reads this
    {
      KeysMatchIds(seats)
    }

    /** The seat map covers exactly the rows x cols grid. Every action but import keeps this. */
    ghost predicate GridExact()
      reads this
    {
      seats.Keys == GridKeys(rows, cols)
    }

    /** The store's initial state, before the first grid build. */
    constructor ()
      ensures Valid()
      ensures rows == DefaultRows && cols == DefaultCols && seats == map[]
      ensures mode == Normal && seatTypes == DefaultSeatTypes && ticketTypes == DefaultTicketTypes
      ensures selectedSeatType == None && selectedTicketType == None && !isDrawing
    {
      rows, cols, seats := DefaultRows, DefaultCols, map[];
      mode := Normal;
      seatTypes, ticketTypes := DefaultSeatTypes, DefaultTicketTypes;
      selectedSeatType, selectedTicketType := None, None;
      isDrawing := false;
    }

    /** `getSeat`: the record filed under "row-col", if any. */
    function GetSeat(row: nat, col: nat): (s: Option<Seat>)
      reads this
      ensures s.Some? <==> SeatId(row, col) in seats
      ensures s.Some? ==> s.value == seats[SeatId(row, col)]
    {
      var id := SeatId(row, col);
      if id in seats then Some(seats[id]) else None
    }

    /** On an exact grid a lookup finds a seat exactly for the in-range coordinates, with that coordinate's id. */
    lemma GetSeatInGrid(row: nat, col: nat)
      requires Valid() && GridExact()
      ensures GetSeat(row, col).Some? <==> row < rows && col < cols
      ensures GetSeat(row, col).Some? ==> GetSeat(row, col).value.id == SeatId(row, col)
    {
      GridKeysMember(row, col, rows, cols);
    }

    /** `getSeats`: every record of the seat map once, in no promised order. */
    method GetSeats() returns (list: seq<Seat>, ghost order: seq<string>)
      ensures Enumerates(list, order, seats)
      ensures |list| == |seats|
      ensures forall i :: 0 <= i < |list| ==> list[i] in seats.Values
      ensures forall k :: k in seats ==> seats[k] in list
    {
      list, order := [], [];
      var rest := seats.Keys;
      while rest != {}
        invariant rest <= seats.Keys
        invariant forall k :: k in seats ==> (k in rest <==> k !in order)
        invariant |order| == |list|
        invariant forall i, j :: 0 <= i < j < |order| ==> order[i] != order[j]
        invariant forall i :: 0 <= i < |order| ==> order[i] in seats && list[i] == seats[order[i]]
        decreases rest
      {
        var k :| k in rest;
        list, order := list + [seats[k]], order + [k];
        rest := rest - {k};
      }
      EnumerationSize(list, order, seats);
      forall k | k in seats ensures seats[k] in list {
        var i :| 0 <= i < |order| && order[i] == k;
        assert list[i] == seats[k];
      }
    }

    /** `setSeatTypes`: replaces the seat-kind catalog; seats are not touched. */
    method SetSeatTypes(types: seq<SeatType>)
      modifies this`seatTypes
      ensures seatTypes == types
    {
      seatTypes := types;
    }

    /**
     * `setTicketTypes`: replaces the ticket-type catalog, rebinds every ticket
     * seat's ticket type by id and reconciles the selection.
     */
    method SetTicketTypes(types: seq<TicketType>)
      requires Valid()
      modifies this`seats, this`ticketTypes, this`selectedTicketType
      ensures Valid()
      ensures ticketTypes == types
      ensures seats == SyncAll(old(seats), types)
      ensures selectedTicketType == SyncSelection(old(selectedTicketType), old(ticketTypes), types)
      ensures old(GridExact()) ==> GridExact()
    {
      var next := seats;
      var rest := seats.Keys;
      while rest != {}
        invariant rest <= seats.Keys
        invariant next.Keys == seats.Keys
        invariant forall k :: k in seats ==> next[k] == if k in rest then seats[k] else SyncSeat(seats[k], types)
        decreases rest
      {
        var k :| k in rest;
        next := next[k := SyncSeat(next[k], types)];
        rest := rest - {k};
      }
      assert next == SyncAll(seats, types);
      var selection := SyncSelection(selectedTicketType, ticketTypes, types);
      ticketTypes, seats, selectedTicketType := types, next, selection;
      SyncAllKeepsInvariants(old(seats), types, rows, cols);
    }

    /** `setSelectedTicketType`. */
    method SetSelectedTicketType(ticket: Option<TicketType>)
      modifies this`selectedTicketType
      ensures selectedTicketType == ticket
    {
      selectedTicketType := ticket;
    }

    /** `setRows`: sets the row count, then rebuilds the grid. */
    method SetRows(n: int)
      requires Valid()
      modifies this`rows, this`seats
      ensures Valid() && GridExact()
      ensures rows == n && IsRebuild(seats, old(seats), n, cols)
    {
      rows := n;
      UpdateSeatsGrid();
    }

    /** `setCols`: sets the column count, then rebuilds the grid. */
    method SetCols(n: int)
      requires Valid()
      modifies this`cols, this`seats
      ensures Valid() && GridExact()
      ensures cols == n && IsRebuild(seats, old(seats), rows, n)
    {
      cols := n;
      UpdateSeatsGrid();
    }

    /**
     * `setMode`. Entering edit mode with no seat kind selected selects the
     * catalog's first kind; with an empty catalog that selection throws (it
     * reads `.id` of undefined) before the mode is set, reported as !ok with
     * nothing changed.
     */
    method SetMode(m: Mode) returns (ok: bool)
      modifies this`mode, this`selectedSeatType, this`selectedTicketType
      ensures ok <==> !(m == Edit && old(selectedSeatType).None? && seatTypes == [])
      ensures !ok ==> unchanged(this)
      ensures ok ==> mode == m
      ensures ok && m == Edit && old(selectedSeatType).None? ==>
        selectedSeatType == Some(seatTypes[0]) &&
        selectedTicketType == TicketAfterKindSelect(seatTypes[0], old(selectedTicketType), ticketTypes)
      ensures !(m == Edit && old(selectedSeatType).None?) ==>
        selectedSeatType == old(selectedSeatType) && selectedTicketType == old(selectedTicketType)
    {
      if m == Edit && selectedSeatType.None? {
        if seatTypes == [] {
          return false;
        }
        SetSelectedSeatType(seatTypes[0]);
      }
      mode := m;
      ok := true;
    }

    /**
     * `setSelectedSeatType`: selecting the "ticket" kind with no ticket type
     * selected also selects the first ticket type.
     */
    method SetSelectedSeatType(kind: SeatType)
      modifies this`selectedSeatType, this`selectedTicketType
      ensures selectedSeatType == Some(kind)
      ensures selectedTicketType == TicketAfterKindSelect(kind, old(selectedTicketType), ticketTypes)
    {
      if kind.id == "ticket" {
        if selectedTicketType.None? {
          SetSelectedTicketType(if ticketTypes == [] then None else Some(ticketTypes[0]));
        }
      }
      selectedSeatType := Some(kind);
    }

    /** `setIsDrawing`. */
    method SetIsDrawing(drawing: bool)
      modifies this`isDrawing
      ensures isDrawing == drawing
    {
      isDrawing := drawing;
    }

    /** `updateSeat`: paints (row, col) with the selected brush. */
    method UpdateSeat(row: nat, col: nat)
      requires Valid()
      modifies this`seats
      ensures Valid()
      ensures seats == Paint(old(seats), selectedSeatType, selectedTicketType, row, col)
      ensures old(GridExact()) && row < rows && col < cols ==> GridExact()
    {
      PaintKeepsIds(seats, selectedSeatType, selectedTicketType, row, col);
      if row < rows && col < cols && GridExact() {
        PaintKeepsGrid(seats, selectedSeatType, selectedTicketType, row, col, rows, cols);
      }
      if selectedSeatType.None? {
        return;
      }
      var id := SeatId(row, col);
      var next := seats;
      if selectedSeatType.value.id == "none" {
        next := next[id := Seat(id, row, col, Label(row, col), None, None)];
      } else if id in next {
        if KindId(next[id]) == Some(selectedSeatType.value.id) {
          return;
        }
        if KindId(next[id]) == Some("brick") && selectedSeatType.value.id == "ticket" {
          return;
        }
        var ticket := if selectedSeatType.value.id == "ticket" then selectedTicketType else None;
        next := next[id := next[id].(seatType := selectedSeatType, ticketType := ticket)];
      } else {
        var ticket := if selectedSeatType.value.id == "ticket" then selectedTicketType else None;
        next := next[id := Seat(id, row, col, Label(row, col), selectedSeatType, ticket)];
      }
      seats := next;
    }

    /** `updateSeatsGrid`: rebuilds the seat map row by row for the current rows x cols. */
    method UpdateSeatsGrid()
      requires Valid()
      modifies this`seats
      ensures Valid() && GridExact()
      ensures IsRebuild(seats, old(seats), rows, cols)
    {
      var next: map<string, Seat> := map[];
      var r := 0;
      while r < rows
        invariant 0 <= r <= Nat(rows)
        invariant next == Filled(seats, Nat(cols), r, 0)
      {
        var c := 0;
        while c < cols
          invariant 0 <= c <= Nat(cols)
          invariant next == Filled(seats, Nat(cols), r, c)
        {
          var id := SeatId(r, c);
          var seat := if id in seats then seats[id] else EmptySeat(r, c);
          next := next[id := seat];
          c := c + 1;
        }
        r := r + 1;
      }
      RebuildKeepsIds(seats, rows, cols);
      RebuildUnique(next, seats, rows, cols);
      seats := next;
    }

    /**
     * `handleSeatInteraction` for an in-range cell: paints in edit mode, does
     * nothing in grep mode, and in normal mode only shows the seat.
     */
    method HandleSeatInteraction(row: int, col: int)
      requires Valid() && 0 <= row < rows && 0 <= col < cols
      modifies this`seats
      ensures Valid()
      ensures seats == if mode == Edit then Paint(old(seats), selectedSeatType, selectedTicketType, row, col)
                       else old(seats)
      ensures old(GridExact()) ==> GridExact()
    {
      match mode
      case Normal =>
      case Grep =>
      case Edit =>
        if selectedSeatType.Some? {
          UpdateSeat(row, col);
        }
    }

    /** `exportSeatsToJSON`, as the document it serialises. */
    method ExportSeats() returns (doc: Document, ghost order: seq<string>)
      ensures WellTyped(doc)
      ensures doc.rows.value == rows && doc.cols.value == cols
      ensures doc.seatTypes.value == seatTypes && doc.ticketTypes.value == ticketTypes
      ensures Enumerates(doc.seats.value, order, seats)
    {
      var list;
      list, order := GetSeats();
      doc := Document(Present(rows), Present(cols), Present(seatTypes), Present(ticketTypes), Present(list));
    }

    /**
     * `importSeatsFromJSON`; `input` is None when the text does not parse.
     * A well-typed document replaces the dimensions, both catalogs and the
     * seat map (keyed by each seat's id), clears both selections and returns
     * to normal mode; anything else changes nothing.
     */
    method ImportSeats(input: Option<Document>) returns (ok: bool)
      requires Valid()
      modifies this`rows, this`cols, this`seatTypes, this`ticketTypes, this`seats,
               this`selectedSeatType, this`selectedTicketType, this`mode
      ensures Valid()
      ensures ok <==> input.Some? && WellTyped(input.value)
      ensures !ok ==> unchanged(this)
      ensures ok ==>
        && rows == input.value.rows.value && cols == input.value.cols.value
        && seatTypes == input.value.seatTypes.value && ticketTypes == input.value.ticketTypes.value
        && seats == IndexById(input.value.seats.value)
        && selectedSeatType == None && selectedTicketType == None && mode == Normal
    {
      if input.None? || !WellTyped(input.value) {
        return false;
      }
      var doc := input.value;
      var list := doc.seats.value;
      var index: map<string, Seat> := map[];
      for i := 0 to |list|
        invariant index == IndexById(list[..i])
      {
        assert list[..i + 1][..i] == list[..i];
        index := index[list[i].id := list[i]];
      }
      assert list[..|list|] == list;
      IndexByIdKeys(list);
      rows, cols, seatTypes, ticketTypes, seats := doc.rows.value, doc.cols.value,
        doc.seatTypes.value, doc.ticketTypes.value, index;
      selectedSeatType, selectedTicketType, mode := None, None, Normal;
      ok := true;
    }

    /** `handleMouseDown` of a seat cell: in edit mode, starts drawing and paints the cell. */
    method MouseDown(row: int, col: int)
      requires Valid() && 0 <= row < rows && 0 <= col < cols
      modifies this`isDrawing, this`seats
      ensures Valid()
      ensures old(mode) != Edit ==> unchanged(this)
      ensures mode == Edit ==> isDrawing && seats == Paint(old(seats), selectedSeatType, selectedTicketType, row, col)
      ensures old(GridExact()) ==> GridExact()
    {
      if mode != Edit {
        return;
      }
      SetIsDrawing(true);
      HandleSeatInteraction(row, col);
    }

    /** `handleMouseEnter` of a seat cell: paints only in edit mode while drawing. */
    method MouseEnter(row: int, col: int)
      requires Valid() && 0 <= row < rows && 0 <= col < cols
      modifies this`seats
      ensures Valid()
      ensures seats == if mode == Edit && isDrawing
                       then Paint(old(seats), selectedSeatType, selectedTicketType, row, col)
                       else old(seats)
      ensures old(GridExact()) ==> GridExact()
    {
      if mode != Edit {
        return;
      }
      if isDrawing {
        HandleSeatInteraction(row, col);
      }
    }

    /** The cell's `onMouseUp` (and the document-wide mouse-up listener): stops drawing, in any mode. */
    method MouseUp()
      modifies this`isDrawing
      ensures !isDrawing
    {
      SetIsDrawing(false);
    }
  }

  /** The store as the module creates it: the initial state, then the initial grid build. */
  method CreateStore() returns (m: SeatMap)
    ensures fresh(m) && m.Valid() && m.GridExact()
    ensures m.rows == DefaultRows && m.cols == DefaultCols
    ensures forall r: nat, c: nat :: r < m.rows && c < m.cols ==>
      SeatId(r, c) in m.seats && m.seats[SeatId(r, c)] == EmptySeat(r, c)
    ensures m.mode == Normal && m.seatTypes == DefaultSeatTypes && m.ticketTypes == DefaultTicketTypes
    ensures m.selectedSeatType == None && m.selectedTicketType == None && !m.isDrawing
  {
    m := new SeatMap();
    m.UpdateSeatsGrid();
  }
}
