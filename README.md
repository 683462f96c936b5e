# Seat-map editor: verified model of the seat-grid store

This project models the state engine of an interactive seat-map editor. The
engine keeps a rows x cols grid of seats keyed by `"row-col"`, a catalog of
seat kinds ("ticket", "brick", "none") and a catalog of ticket types. It also
keeps the interaction state: mode, selected brush and the drawing flag. Its
actions are modelled:

- painting a cell with the selected brush;
- rebuilding the grid after a resize;
- rebinding seats when the ticket catalog changes;
- the brush fallbacks when the mode or the seat kind changes;
- export and import of the editor document;
- the press / enter / release protocol by which a seat cell paints while the
  mouse is dragged.

The store in `src/store/useSeatMap.ts` becomes the class
`SeatMapStore.SeatMap`, with one field per store field. Its actions are
methods. Each method's `ensures` states the new state as a function of the old
one:

- `Painting.Paint` for `updateSeat`;
- `Grid.Rebuild` / `Grid.IsRebuild` for `updateSeatsGrid`;
- `TicketSync.SyncAll` / `TicketSync.SyncSelection` for `setTicketTypes`;
- `Serializer.IndexById` for the import.

Each of those functions carries its own properties, proved as lemmas: the
ordered no-op rules of the paint, the exact key set of a rebuilt grid, and
the round trip of export and import. The gesture handlers of
`src/components/Seat.tsx` are the methods `MouseDown`, `MouseEnter` and
`MouseUp` on the same class. Module `Scenarios` drives the store through the
calls a client makes: a drag, a grow-and-shrink resize, deleting a ticket type, and export
followed by import.

Modelling choices:

- **Seat labels** (`getSeatLabel`) are sequences of UTF-16 code units
  (`Labels.JsString`). `String.fromCharCode(65 + row)` wraps modulo 2^16 and can
  produce a lone surrogate, which a Dafny `char` cannot hold. Ids, names and
  colors are `string`.
- **Grid dimensions** are `int`. `setRows` does not check its argument: zero
  or a negative count makes the rebuild loops run zero times, so the grid is
  empty (`Grid.Nat` clamps at 0).
- **The rebuild** (`Grid.Filled`) is defined recursively in the row-major
  order of the nested loops of `updateSeatsGrid`. It is proved equal to the
  set-comprehension description `Grid.GridKeys` plus the pointwise rule
  "existing record or fresh empty seat".
- **Invariants** of the class:
  - `Valid()`: every record is filed under its own id. All actions keep it.
  - `GridExact()`: the key set is exactly the rows x cols grid. Import does
    not keep it, because it takes the document's seats as given. Every other
    action keeps it (`UpdateSeat` only for an in-range cell, which is all
    `handleSeatInteraction` is ever given).
  - `SeatModel.TicketOnlyOnTicketSeats`: only "ticket" seats carry a ticket
    type. Paint, rebuild and sync keep it. Import can break it: a document
    may hold a "brick" seat with a ticket type, and `setTicketTypes` then
    leaves that ticket type alone, since it looks only at "ticket" seats.
- **Absent type.** A seat whose `type` is `null` (the rebuild writes this) and
  one whose `type` is `undefined` are the same: `seatType == None`.
- **The initial state** is the class constructor. The store module rebuilds
  the grid once when it loads (`useSeatMap.ts:352`); that rebuild is
  `SeatMapStore.CreateStore`.
- **Import input.** The parsed document is `Serializer.Document`. Its fields
  are `Present(value)` or `WrongType`, for the `typeof` / `Array.isArray`
  checks. `None` stands for text that `JSON.parse` rejects.
- **The seat order of `Object.values`** is not promised. `GetSeats` and
  `ExportSeats` return a ghost `order` of the keys. The predicate
  `Serializer.Enumerates` says the list holds each record exactly once in that
  order.
- **Renamed fields.** The Dafny names differ from the source's:
  - `type` is `seatType`;
  - a seat's `label` is `seatLabel`;
  - a ticket type's `label` is `shortLabel`;
  - mode `"grep"` is `Grep` (and likewise for the other modes).

Behaviour of the code that is easy to misread; the model keeps it as written:

- The third mode is `"grep"`. It does nothing to the grid.
- `setTicketTypes` clears a selected ticket type whose id is gone. It does not
  fall back to the new catalog's first entry. With no selection, it selects
  the OLD catalog's first entry (`useSeatMap.ts:153-155`). So the selection
  can name a type that is no longer in the catalog
  (`TicketSync.SyncSelectionCanDangle`).
- `setMode("edit")` with no selected kind and an empty seat-kind catalog reads
  `.id` of `undefined` and throws before the mode is set. `SetMode` reports
  this as `ok == false` with nothing changed.
- Import does not reset `isDrawing`. It does not rebuild the grid.
- Repainting a ticket seat with the ticket brush is a no-op even when the
  selected ticket type differs (`Painting.TicketRepaintKeepsTicketType`).

## Model

| member | source | states |
|---|---|---|
| Labels.SeatId | src/store/useSeatMap.ts:114 | the id `${row}-${col}`: the row's numeral, a dash, the column's numeral (its properties are the SeatIdInjective and SeatIdEq rows) |
| Labels.Label | src/store/useSeatMap.ts:24-27 | `getSeatLabel`: at least two code units, the first (65 + row) mod 2^16, the rest digits (read back as col + 1 by LabelDecodes) |
| Labels.NatToString | src/store/useSeatMap.ts:114 | the decimal numeral of an integral number: non-empty and made only of digits |
| Labels.DecimalRoundTrip | src/store/useSeatMap.ts:114 | reading the numeral back gives the number, so numerals are unambiguous |
| Labels.NatToStringInjective | src/store/useSeatMap.ts:114 | distinct numbers print as distinct numerals |
| Labels.DashIndexAfterDigits | src/store/useSeatMap.ts:114 | in "row-col" the first dash sits right after the row's numeral |
| Labels.SeatIdInjective | src/store/useSeatMap.ts:114 | two coordinates with the same id "row-col" are the same coordinates |
| Labels.SeatIdEq | src/store/useSeatMap.ts:199 | ids "row-col" are equal exactly when the coordinates are equal |
| Labels.Ascii | src/store/useSeatMap.ts:26 | the UTF-16 code units of an ASCII numeral, one per character, same values |
| Labels.LabelDecodes | src/store/useSeatMap.ts:24-27 | for row < 26 the first unit is a capital letter; the units after it are the numeral of col + 1, read back as that value (the unit shape is the Label row) |
| Labels.LabelExamples | src/store/useSeatMap.ts:24-27 | (0,0) is labelled "A1" and (1,11) is labelled "B12" |
| SeatModel.KindId | src/store/useSeatMap.ts:215 | definition of `seat.type?.id` (absent for a seat without a kind); its uses are the PaintNoOps and TicketRepaintKeepsTicketType rows |
| SeatModel.EmptySeat | src/store/useSeatMap.ts:268-274 | definition of the record a rebuild creates for a missing cell; its label and id properties are the LabelDecodes and SeatIdInjective rows, its use the Rebuild and FilledValues rows |
| Grid.Cell | src/store/useSeatMap.ts:266-274 | definition of `existingSeat || {...}` for (r, c); what the rebuild stores through it is the FilledValues and Rebuild rows |
| Grid.Filled | src/store/useSeatMap.ts:262-276 | the map the nested loops have built on reaching (r, c), defined step by step in loop order (its keys, size and values are the FilledKeys, FilledSize and FilledValues rows) |
| Grid.KeysBeforeStep | src/store/useSeatMap.ts:263-264 | one more column step adds exactly the id of that cell to the ids already visited |
| Grid.KeysBeforeRow | src/store/useSeatMap.ts:262-263 | starting a row has visited exactly the ids of all earlier rows |
| Grid.NotYetFilled | src/store/useSeatMap.ts:262-264 | the loops never visit an id twice |
| Grid.FilledKeys | src/store/useSeatMap.ts:262-276 | after the loops reach (r, c) the new map holds exactly the ids visited so far in row-major order |
| Grid.FilledSize | src/store/useSeatMap.ts:262-276 | after the loops reach (r, c) the new map has r * cols + c entries |
| Grid.FilledValues | src/store/useSeatMap.ts:266-274 | every visited cell holds the existing record if there was one, else a fresh empty seat |
| Grid.FilledSpec | src/store/useSeatMap.ts:262-276 | keys, size and values of the partially built map, together |
| Grid.Rebuild | src/store/useSeatMap.ts:256-280 | the rebuilt map's keys are exactly "r-c" for 0 <= r < rows, 0 <= c < cols; its size is rows x cols (0 for a non-positive count); each cell keeps its existing record or gets a fresh empty seat |
| Grid.GridKeysMember | src/store/useSeatMap.ts:262-264 | "r-c" is a grid key exactly when r < rows and c < cols |
| Grid.GridKeyCoordinates | src/store/useSeatMap.ts:262-264 | every grid key is "r-c" for some in-range r and c |
| Grid.GridKeysGrow | src/store/useSeatMap.ts:262-263 | a grid's keys are among those of any grid at least as tall and as wide |
| Grid.GridSize | src/store/useSeatMap.ts:262-263 | the grid has rows x cols keys |
| Grid.RebuildUnique | src/store/useSeatMap.ts:256-280 | the pointwise description of a rebuild determines it: a map satisfies it exactly when it is the rebuild |
| Grid.RebuildExact | src/store/useSeatMap.ts:266-268 | rebuilding a map that already covers exactly the grid gives the same map |
| Grid.RebuildTwice | src/store/useSeatMap.ts:162-169 | two rebuilds in a row equal one rebuild to the final size, as long as the intermediate grid drops no seat the final grid has |
| Grid.RebuildKeepsIds | src/store/useSeatMap.ts:264-274 | after a rebuild every record is still filed under its own id |
| Grid.RebuildKeepsTicketsOnTicketSeats | src/store/useSeatMap.ts:266-274 | after a rebuild only "ticket" seats carry a ticket type, if that held before |
| Painting.Paint | src/store/useSeatMap.ts:195-254 | painting removes no key, adds at most the painted cell's key, and leaves every other entry unchanged |
| Painting.BrushTicket | src/store/useSeatMap.ts:231-247 | definition of the ticket type a painted seat receives: the selected one for the "ticket" brush, none otherwise; its properties are the PaintApplies and PaintKeepsTicketsOnTicketSeats rows |
| Painting.PaintNoOps | src/store/useSeatMap.ts:197-225 | the map is unchanged when no kind is selected, when the cell already has the brush's kind, and when a brick meets the ticket brush |
| Painting.PaintErase | src/store/useSeatMap.ts:203-212 | the "none" brush always leaves an empty seat with the cell's id, coordinates and label, present or not before |
| Painting.EraseIdempotent | src/store/useSeatMap.ts:203-212 | erasing twice is erasing once |
| Painting.PaintApplies | src/store/useSeatMap.ts:227-250 | outside the no-op cases the cell gets the brush's kind and, for "ticket" only, the selected ticket type; an existing record keeps its other fields, and a missing one is created with its own id, coordinates and label |
| Painting.PaintBlankCell | src/store/useSeatMap.ts:227-235 | painting a cell of no kind with any brush but "none" only updates that cell's kind and ticket type |
| Painting.PaintKeepsGrid | src/store/useSeatMap.ts:199-252 | painting an in-range cell keeps the key set equal to the grid |
| Painting.PaintKeepsIds | src/store/useSeatMap.ts:199-252 | painting keeps every record filed under its own id |
| Painting.PaintKeepsTicketsOnTicketSeats | src/store/useSeatMap.ts:231-247 | painting never gives a ticket type to a seat that is not of kind "ticket" |
| Painting.BrickResistsTicket | src/store/useSeatMap.ts:220-225 | the ticket brush leaves a brick alone; erasing it first lets the ticket brush through |
| Painting.TicketRepaintKeepsTicketType | src/store/useSeatMap.ts:215-217 | repainting a ticket seat with the ticket brush keeps its old ticket type, whatever ticket type is selected |
| TicketSync.FindById | src/store/useSeatMap.ts:143-145 | the lookup fails exactly when no entry has the id; otherwise it returns the first entry with that id |
| TicketSync.SyncSeat | src/store/useSeatMap.ts:142-151 | one seat after the catalog change: only its ticket type can change; a ticket type it keeps has the same id as before, and a changed one is an entry of the new catalog |
| TicketSync.SyncSelection | src/store/useSeatMap.ts:153-155 | the selection after the catalog change: a kept selection is an entry of the new catalog with the old id; no selection becomes the old catalog's first entry, or none when that catalog is empty |
| TicketSync.SyncAll | src/store/useSeatMap.ts:140-152 | synchronising keeps the key set of the seat map |
| TicketSync.SyncSeatSpec | src/store/useSeatMap.ts:142-151 | a ticket seat with a ticket type is rebound to the new entry with the same id, or loses its ticket type exactly when no entry has that id; only the ticket type can change; every other seat is unchanged |
| TicketSync.SyncAllKeepsInvariants | src/store/useSeatMap.ts:140-152 | synchronising keeps an exact grid exact, records under their own ids, and ticket types on "ticket" seats only |
| TicketSync.SyncAllNoDanglingTickets | src/store/useSeatMap.ts:142-151 | if only ticket seats carried a ticket type before, every ticket type a seat carries afterwards is an entry of the new catalog |
| TicketSync.SyncSelectionSpec | src/store/useSeatMap.ts:153-155 | a selection is rebound to the new entry with its id, or cleared exactly when the id is gone; no selection becomes the old catalog's first entry, or none if that catalog was empty |
| TicketSync.SyncSelectionCanDangle | src/store/useSeatMap.ts:155 | with no selection, whenever the old catalog's first entry is not in the new catalog, the selection becomes that entry, which the catalog no longer holds |
| TicketSync.SyncSelectionDanglesOnDefaults | src/store/useSeatMap.ts:155 | emptying the default catalog with nothing selected selects "regular" |
| Serializer.WellTyped | src/store/useSeatMap.ts:319-324 | the import's gate: rows and cols present as numbers, the three lists present as arrays |
| Serializer.IndexById | src/store/useSeatMap.ts:326-329 | the map `seatsObj[seat.id] = seat` builds, seat by seat: every entry is a seat of the list, filed under its own id |
| Serializer.IndexByIdKeys | src/store/useSeatMap.ts:326-329 | indexing a seat list by id gives exactly the list's ids as keys, each filed under its own id |
| Serializer.IndexByIdLastWins | src/store/useSeatMap.ts:327-329 | when ids repeat, the last seat with an id is the one kept |
| Serializer.DistinctSize | src/store/useSeatMap.ts:311 | distinct keys listed once each are as many as the list is long |
| Serializer.EnumerationSize | src/store/useSeatMap.ts:311 | the exported list has as many seats as the seat map has entries |
| Serializer.IndexByIdOfEnumeration | src/store/useSeatMap.ts:311-329 | indexing by id a list that enumerates a map whose records sit under their own ids gives back that map, in whatever order the list is |
| SeatMapStore.TicketAfterKindSelect | src/store/useSeatMap.ts:181-189 | selecting the "ticket" kind with no ticket type selected selects the catalog's first ticket type (none if the catalog is empty); any other case keeps the selection |
| SeatMapStore.SeatMap.constructor | src/store/useSeatMap.ts:94-111 | the initial state: 10 x 26, no seats yet, normal mode, the default kinds and ticket types, nothing selected, not drawing |
| SeatMapStore.SeatMap.GetSeat | src/store/useSeatMap.ts:113-116 | the lookup finds a record exactly when "row-col" is a key, and returns the record under that key |
| SeatMapStore.SeatMap.GetSeatInGrid | src/store/useSeatMap.ts:113-116 | on an exact grid the lookup succeeds exactly for in-range coordinates and finds the record with that id |
| SeatMapStore.SeatMap.GetSeats | src/store/useSeatMap.ts:118-120 | the list is as long as the seat map, holds only records of the map and every one of them, each exactly once (one per key) |
| SeatMapStore.SeatMap.SetSeatTypes | src/store/useSeatMap.ts:135 | the seat-kind catalog is replaced; nothing else changes |
| SeatMapStore.SeatMap.SetTicketTypes | src/store/useSeatMap.ts:136-158 | the catalog is replaced, every seat is synchronised by id and the selection reconciled as TicketSync states; an exact grid stays exact |
| SeatMapStore.SeatMap.SetSelectedTicketType | src/store/useSeatMap.ts:159-160 | the ticket-type selection is set unconditionally |
| SeatMapStore.SeatMap.SetRows | src/store/useSeatMap.ts:162-165 | the row count is set and the seat map is the rebuild for the new size, so the grid is exact |
| SeatMapStore.SeatMap.SetCols | src/store/useSeatMap.ts:166-169 | the column count is set and the seat map is the rebuild for the new size, so the grid is exact |
| SeatMapStore.SeatMap.SetMode | src/store/useSeatMap.ts:170-178 | the mode is set; entering edit mode with no kind selected selects the first kind (and through it possibly the first ticket type); with an empty kind catalog that fails and nothing changes |
| SeatMapStore.SeatMap.SetSelectedSeatType | src/store/useSeatMap.ts:181-189 | the kind is selected, and the ticket type follows TicketAfterKindSelect |
| SeatMapStore.SeatMap.SetIsDrawing | src/store/useSeatMap.ts:191 | the drawing flag is set |
| SeatMapStore.SeatMap.UpdateSeat | src/store/useSeatMap.ts:195-254 | the seat map becomes the paint of (row, col) with the selected brush; an exact grid stays exact for an in-range cell |
| SeatMapStore.SeatMap.UpdateSeatsGrid | src/store/useSeatMap.ts:256-280 | the nested loops build exactly the rebuild of the old seat map for the current size |
| SeatMapStore.SeatMap.HandleSeatInteraction | src/store/useSeatMap.ts:282-302 | an in-range cell is painted in edit mode only; normal and grep modes leave the seat map alone |
| SeatMapStore.SeatMap.ExportSeats | src/store/useSeatMap.ts:304-314 | the document carries the current size and catalogs as well-typed fields, and lists every seat exactly once |
| SeatMapStore.SeatMap.ImportSeats | src/store/useSeatMap.ts:316-349 | a parsed, well-typed document replaces size, catalogs and seat map (indexed by seat id), clears both selections and sets normal mode; anything else changes nothing |
| SeatMapStore.SeatMap.MouseDown | src/components/Seat.tsx:25-29 | outside edit mode nothing changes; in edit mode drawing starts and the cell is painted |
| SeatMapStore.SeatMap.MouseEnter | src/components/Seat.tsx:31-36 | the cell is painted only in edit mode while drawing; otherwise the seat map is unchanged |
| SeatMapStore.SeatMap.MouseUp | src/components/Seat.tsx:42 | drawing stops, whatever the mode |
| SeatMapStore.CreateStore | src/store/useSeatMap.ts:352 | the store as loaded: the initial state with an exact 10 x 26 grid of empty seats |
| Scenarios.PointerOver | src/components/Seat.tsx:25-36 | pressing on or dragging into a cell of no kind with the ticket brush paints only that cell and leaves drawing on |
| Scenarios.Drag | src/components/Seat.tsx:25-42 | press, two enters, release, one more enter: exactly the three dragged cells are painted, and the enter after the release changes nothing |
| Scenarios.DragOverEmptyRow | src/components/Seat.tsx:25-42 | on a grid of empty seats those three updates leave exactly cells (0,0), (0,1), (0,2) painted and every other cell empty |
| Scenarios.FirstDrag | src/store/useSeatMap.ts:170-189 | on a new store, edit mode picks the brush "ticket" / "regular" by the fallbacks, and a drag over (0,0)-(0,2) paints exactly those cells |
| Scenarios.GrowThenShrink | src/store/useSeatMap.ts:266-274 | growing the grid and shrinking it back, one dimension at a time, restores the seat map |
| Scenarios.DropTicketType | src/store/useSeatMap.ts:140-155 | a ticket seat whose ticket type leaves the catalog keeps its kind and loses only its ticket type; a selection of that type is cleared |
| Scenarios.DeletedTicketTypeOrphansSeat | src/store/useSeatMap.ts:142-151 | a seat painted "ticket" / "vip" is orphaned when the catalog is cut down to "regular" |
| Scenarios.ExportThenImport | src/store/useSeatMap.ts:304-349 | importing the store's own export restores size, catalogs and seat map, clears the selections and returns to normal mode |
| Scenarios.ImportedBrickKeepsTicket | src/store/useSeatMap.ts:142-151 | a document holding a brick seat with a ticket type imports to a map where a non-ticket seat carries one, and syncing to an empty catalog keeps that ticket type |

## Left out

- Rendering: the JSX of `Seat.tsx`, the canvas drawing and the DOM grid are presentation only.
- Converting screen coordinates to cells: it uses floating-point division by the zoom scale and `Math.floor`. Only its in-bounds test (`SeatMapCanvas.tsx:142`) is kept, as the precondition `0 <= row < rows && 0 <= col < cols` of `HandleSeatInteraction` and the gesture methods.
- The canvas-local `isDrawingRef`: it is view state and duplicates the store's flag.
- `alert` and `console` output: the "seat selected" alert in normal mode, the import failure alert and the log lines are I/O. Normal mode is modelled as changing nothing.
- JSON text: export is modelled as the document it serialises and import as the parsed document. A parse failure is `None`.
- Non-integral numbers: `NaN`, fractions and infinities for rows, cols or coordinates are not modelled, because they need floating point. Dimensions are unbounded integers. Numerals are printed digit by digit for every size. JavaScript prints 10^21 and above in exponent notation, and is inexact above 2^53. A grid that large cannot be built, so no reachable id or label is affected.
- Malformed elements inside the imported `seats`, `seatTypes` and `ticketTypes` arrays: only the top-level `typeof` / `Array.isArray` checks are modelled, and each element is taken to be a well-formed record. The model therefore cannot show, for example, the TypeError that a later `setMode("edit")` raises at `useSeatMap.ts:182` after importing `seatTypes: [null]`.
- The enumeration order of `Object.values`: it is left unspecified (a ghost key order), so the model promises no particular seat order in an export.
- Aliasing of seat records: `setTicketTypes` assigns `seat.ticketType` in place on records shared with the previous state object. The model builds a new map of updated values with the same result for the store, but it says nothing about earlier snapshots observing the change.
- The render snapshot in `Seat.tsx`: the handlers read `mode` and `isDrawing` from the last render. The model reads the store's current state.
- `setSeats`, `setShowMinimap`, `setSettingDialogOpen`, `showMinimap` and `settingDialogOpen`: they are display-only or unused by the core.
- The getters `getSeatTypes`, `getTicketTypes` and `getSelectedTicketType`: each returns a field that the model exposes directly.
- The zustand `create` / `set` machinery and the `usePrevious` hook are framework code.
- The document-wide `mouseup` listener (`useSeatMap.ts:354-356`) is event wiring. Its effect is the same as `MouseUp`.
- Labels for rows 26 and beyond are modelled as written, 65 + row: they are not letters, and `LabelDecodes` promises a letter only for row < 26.
