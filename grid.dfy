/**
 * The grid rebuild performed by `updateSeatsGrid`: a fresh map holding, for
 * every coordinate of the current rows x cols grid, the existing record or a
 * new empty one, filled row by row.
 */
module Grid {
  import opened Wrappers
  import opened Labels
  import opened SeatModel

  /** A loop bound: `for (r = 0; r < n; r++)` runs max(n, 0) times. */
  function Nat(x: int): nat {
    if x < 0 then 0 else x
  }

  /** The ids "r-c" of every coordinate 0 <= r < rows, 0 <= c < cols. */
  function GridKeys(rows: int, cols: int): set<string> {
    set r: nat, c: nat | r < rows && c < cols :: SeatId(r, c)
  }

  /** The ids of the cells (i, j) of a grid `cols` wide that come before (r, c) in row-major order. */
  function KeysBefore(cols: nat, r: nat, c: nat): set<string> {
    set i: nat, j: nat | i <= r && j < cols && (i < r || (i == r && j < c)) :: SeatId(i, j)
  }

  /** The record the rebuild stores for (r, c): the existing seat, or a new empty one. */
  function Cell(seats: map<string, Seat>, r: nat, c: nat): (s: Seat) {
    var id := SeatId(r, c);
    if id in seats then seats[id] else EmptySeat(r, c)
  }

  /** The map the nested loops have built when they are about to visit (r, c). */
  function Filled(seats: map<string, Seat>, cols: nat, r: nat, c: nat): (m: map<string, Seat>)
    requires c <= cols
    decreases r, c
  {
    if c > 0 then Filled(seats, cols, r, c - 1)[SeatId(r, c - 1) := Cell(seats, r, c - 1)]
    else if r > 0 then Filled(seats, cols, r - 1, cols)
    else map[]
  }

  lemma KeysBeforeStep(cols: nat, r: nat, c: nat)
    requires 0 < c <= cols
    ensures KeysBefore(cols, r, c) == KeysBefore(cols, r, c - 1) + {SeatId(r, c - 1)}
  {
  }

  lemma KeysBeforeRow(cols: nat, r: nat)
    requires r > 0
    ensures KeysBefore(cols, r, 0) == KeysBefore(cols, r - 1, cols)
  {
  }

  /** The cell about to be visited is not yet in the map. */
  lemma NotYetFilled(cols: nat, r: nat, c: nat)
    requires c < cols
    ensures SeatId(r, c) !in KeysBefore(cols, r, c)
  {
    forall k | k in KeysBefore(cols, r, c) ensures k != SeatId(r, c) {
      var i: nat, j: nat :| i <= r && j < cols && (i < r || (i == r && j < c)) && k == SeatId(i, j);
      SeatIdEq(i, j, r, c);
    }
  }

  lemma {:induction false} FilledKeys(seats: map<string, Seat>, cols: nat, r: nat, c: nat)
    requires c <= cols
    ensures Filled(seats, cols, r, c).Keys == KeysBefore(cols, r, c)
    decreases r, c
  {
    if c > 0 {
      FilledKeys(seats, cols, r, c - 1);
      KeysBeforeStep(cols, r, c);
    } else if r > 0 {
      FilledKeys(seats, cols, r - 1, cols);
      KeysBeforeRow(cols, r);
    } else {
      assert KeysBefore(cols, 0, 0) == {};
    }
  }

  lemma {:induction false} FilledSize(seats: map<string, Seat>, cols: nat, r: nat, c: nat)
    requires c <= cols
    ensures |Filled(seats, cols, r, c)| == r * cols + c
    decreases r, c
  {
    if c > 0 {
      FilledSize(seats, cols, r, c - 1);
      FilledKeys(seats, cols, r, c - 1);
      NotYetFilled(cols, r, c - 1);
    } else if r > 0 {
      FilledSize(seats, cols, r - 1, cols);
      assert (r - 1) * cols + cols == r * cols;
    }
  }

  lemma {:induction false} FilledValues(seats: map<string, Seat>, cols: nat, r: nat, c: nat, i: nat, j: nat)
    requires c <= cols
    requires j < cols && (i < r || (i == r && j < c))
    ensures SeatId(i, j) in Filled(seats, cols, r, c)
    ensures Filled(seats, cols, r, c)[SeatId(i, j)] == Cell(seats, i, j)
    decreases r, c
  {
    if c > 0 {
      if i != r || j != c - 1 {
        FilledValues(seats, cols, r, c - 1, i, j);
        SeatIdEq(i, j, r, c - 1);
      }
    } else {
      FilledValues(seats, cols, r - 1, cols, i, j);
    }
  }

  lemma FilledSpec(seats: map<string, Seat>, cols: nat, r: nat, c: nat)
    requires c <= cols
    ensures Filled(seats, cols, r, c).Keys == KeysBefore(cols, r, c)
    ensures |Filled(seats, cols, r, c)| == r * cols + c
    ensures forall i: nat, j: nat :: j < cols && (i < r || (i == r && j < c)) ==>
      SeatId(i, j) in Filled(seats, cols, r, c) && Filled(seats, cols, r, c)[SeatId(i, j)] == Cell(seats, i, j)
  {
    FilledKeys(seats, cols, r, c);
    FilledSize(seats, cols, r, c);
    forall i: nat, j: nat | j < cols && (i < r || (i == r && j < c))
      ensures SeatId(i, j) in Filled(seats, cols, r, c) && Filled(seats, cols, r, c)[SeatId(i, j)] == Cell(seats, i, j)
    {
      FilledValues(seats, cols, r, c, i, j);
    }
  }

  /**
   * The seat map after `updateSeatsGrid`: exactly the grid's ids, each holding
   * the old record when there was one and an empty seat otherwise.
   */
  function Rebuild(seats: map<string, Seat>, rows: int, cols: int): (g: map<string, Seat>)
    ensures g.Keys == GridKeys(rows, cols)
    ensures |g| == Nat(rows) * Nat(cols)
    ensures forall r: nat, c: nat :: r < rows && c < cols ==>
      SeatId(r, c) in g && g[SeatId(r, c)] == Cell(seats, r, c)
  {
    FilledSpec(seats, Nat(cols), Nat(rows), 0);
    assert KeysBefore(Nat(cols), Nat(rows), 0) == GridKeys(rows, cols);
    Filled(seats, Nat(cols), Nat(rows), 0)
  }

  /** A coordinate's id is in the grid exactly when the coordinate is in range. */
  lemma GridKeysMember(r: nat, c: nat, rows: int, cols: int)
    ensures SeatId(r, c) in GridKeys(rows, cols) <==> r < rows && c < cols
  {
    if SeatId(r, c) in GridKeys(rows, cols) {
      var i: nat, j: nat :| i < rows && j < cols && SeatId(r, c) == SeatId(i, j);
      SeatIdInjective(r, c, i, j);
    }
  }

  /** Every id of the grid names an in-range coordinate. */
  lemma GridKeyCoordinates(k: string, rows: int, cols: int) returns (r: nat, c: nat)
    requires k in GridKeys(rows, cols)
    ensures r < rows && c < cols && k == SeatId(r, c)
  {
    r, c :| r < rows && c < cols && k == SeatId(r, c);
  }

  /** A grid's ids are among those of any grid at least as tall and as wide. */
  lemma GridKeysGrow(rows1: int, cols1: int, rows2: int, cols2: int)
    requires rows1 <= rows2 && cols1 <= cols2
    ensures GridKeys(rows1, cols1) <= GridKeys(rows2, cols2)
  {
    forall k | k in GridKeys(rows1, cols1) ensures k in GridKeys(rows2, cols2) {
      var r, c := GridKeyCoordinates(k, rows1, cols1);
      GridKeysMember(r, c, rows2, cols2);
    }
  }

  /** The grid has rows x cols seats. */
  lemma GridSize(rows: int, cols: int)
    ensures |GridKeys(rows, cols)| == Nat(rows) * Nat(cols)
  {
    var g := Rebuild(map[], rows, cols);
    assert g.Keys == GridKeys(rows, cols);
  }

  /**
   * `g` is what rebuilding `seats` for a rows x cols grid yields. It pins
   * `g` down (RebuildUnique) without unfolding the row-by-row construction.
   */
  ghost predicate IsRebuild(g: map<string, Seat>, seats: map<string, Seat>, rows: int, cols: int) {
    && g.Keys == GridKeys(rows, cols)
    && forall r: nat, c: nat :: r < rows && c < cols ==> SeatId(r, c) in g && g[SeatId(r, c)] == Cell(seats, r, c)
  }

  lemma RebuildUnique(g: map<string, Seat>, seats: map<string, Seat>, rows: int, cols: int)
    ensures IsRebuild(g, seats, rows, cols) <==> g == Rebuild(seats, rows, cols)
  {
    var h := Rebuild(seats, rows, cols);
    if IsRebuild(g, seats, rows, cols) {
      forall k | k in g ensures g[k] == h[k] {
        var r, c := GridKeyCoordinates(k, rows, cols);
      }
    }
  }

  /** Rebuilding a map that already covers exactly the grid changes nothing. */
  lemma RebuildExact(g: map<string, Seat>, seats: map<string, Seat>, rows: int, cols: int)
    requires seats.Keys == GridKeys(rows, cols)
    requires IsRebuild(g, seats, rows, cols)
    ensures g == seats
  {
    forall k | k in seats ensures g[k] == seats[k] {
      var r, c := GridKeyCoordinates(k, rows, cols);
    }
  }

  /**
   * Two rebuilds in a row give the second rebuild of the original map, as
   * long as the first kept every record the second one would keep: so a grid
   * grown and shrunk back keeps its painted seats.
   */
  lemma RebuildTwice(seats: map<string, Seat>, first: map<string, Seat>, second: map<string, Seat>,
                     rows1: int, cols1: int, rows2: int, cols2: int)
    requires forall k :: k in seats && k in GridKeys(rows2, cols2) ==> k in GridKeys(rows1, cols1)
    requires IsRebuild(first, seats, rows1, cols1) && IsRebuild(second, first, rows2, cols2)
    ensures IsRebuild(second, seats, rows2, cols2)
  {
    forall r: nat, c: nat | r < rows2 && c < cols2 ensures second[SeatId(r, c)] == Cell(seats, r, c) {
      GridKeysMember(r, c, rows1, cols1);
      GridKeysMember(r, c, rows2, cols2);
    }
  }

  /** A rebuild keeps every record filed under its own id. */
  lemma RebuildKeepsIds(seats: map<string, Seat>, rows: int, cols: int)
    requires KeysMatchIds(seats)
    ensures KeysMatchIds(Rebuild(seats, rows, cols))
  {
    var g := Rebuild(seats, rows, cols);
    forall k | k in g ensures g[k].id == k {
      var r, c := GridKeyCoordinates(k, rows, cols);
    }
  }

  /** A rebuild gives no ticket type to a seat that is not of kind "ticket". */
  lemma RebuildKeepsTicketsOnTicketSeats(seats: map<string, Seat>, rows: int, cols: int)
    requires TicketOnlyOnTicketSeats(seats)
    ensures TicketOnlyOnTicketSeats(Rebuild(seats, rows, cols))
  {
    var g := Rebuild(seats, rows, cols);
    forall k | k in g && g[k].ticketType.Some? ensures KindId(g[k]) == Some("ticket") {
      var r, c := GridKeyCoordinates(k, rows, cols);
    }
  }
}
