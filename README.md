# Game of Life grid and its resizable view, in Dafny

This project models the simulation core of a terminal Game of Life served
over telnet: the grid of live and dead cells with its one-generation step
(`src/lib.rs`), and the `ResizableGrid` view that holds the grid on screen,
pauses it, re-seeds it when the terminal is resized and lets the user
toggle cells with the mouse (`src/view.rs`).

- `wrappers.dfy` — module `Wrappers`: `Option` and `Vec::get`.
- `life.dfy` — module `Life`: `Cell`, `Grid` (rows of cells, possibly
  ragged, as a `Vec<Vec<Cell>>` may be), `empty`, `random`, `size`,
  `is_alive`, the cell reading of the `make_grid` test helper, `neighbours` (an imperative method with the source's two nested
  loops, proved equal to the eight-neighbour count), the life rule and
  `tick`, and the properties of these.
- `life_examples.dfy` — module `LifeExamples`: the grids of the unit tests in
  `src/lib.rs` with the counts and generations those tests expect.
- `view.dfy` — module `View`: the class `ResizableGrid` with its fields
  `grid` and `pause`, updated in place by `Layout`, `OnEvent` and `Reset`;
  the functions `AfterLayout` and `AfterEvent` that give the state these
  methods leave behind; `AsRows`; and the lemmas about the event machine.

The help dialog (src/view.rs:26-43) lists space as pausing the simulation,
but the `Refresh` arm of `on_event` (src/view.rs:127-128) ticks the grid
whether or not the view is paused; only the tick done by `layout`
(src/view.rs:117) honours the flag. The model follows the code:
`View.RefreshIgnoresPause` states this. The `h` and `q` keys listed in that
dialog (src/view.rs:28-30) are not handled by `on_event` (src/view.rs:125-153);
they are bound by `setup_cursive`, called at src/main.rs:9 and
src/bin/server.rs:45, which is not part of this model.

Modelling choices:

- `Grid::random` draws each cell from a random generator with a given
  probability. Here the draws are a parameter `coin: (nat, nat) -> bool`
  that says, cell by cell, whether the draw came out alive; the shape of the
  result is what is proved.
- `Grid::size` and `Cell::toggle` are called by `src/view.rs` but are not
  defined in `src/lib.rs`. They are defined here as: `size` is the number
  of rows and the length of the first row, or `(0, 0)` without rows;
  `toggle` swaps `Alive` and `Dead`.
- The first coordinate is the row index and the second the column index, in
  the grid, in `is_alive`, in `neighbours` and in mouse positions alike.

## Model

| member | source | states |
|---|---|---|
| `Wrappers.Get` | src/lib.rs:82-83 | `Vec::get` gives the element exactly when the index is below the length |
| `Life.Toggle` | src/view.rs:146 | toggling always changes a cell (so swaps `Alive` and `Dead`) |
| `Life.Empty` | src/lib.rs:26-31 | `empty(x, y)` has exactly `x` rows of `y` cells and every cell is dead |
| `Life.Random` | src/lib.rs:34-50 | `random(x, y, _)` has exactly `x` rows of `y` cells, each alive exactly when its draw says so |
| `Life.RandomSize` | src/lib.rs:264-271 | a random grid is rectangular and its size is the one asked for, or `(0, 0)` with no rows |
| `Life.Size` | src/view.rs:116 | `(0, 0)` for a grid without rows, otherwise the number of rows and the length of the first row; on a rectangular grid with rows every row has that length |
| `Life.ToIndex` | src/lib.rs:79 | `usize::try_from` succeeds exactly on non-negative values and keeps the value |
| `Life.IsAlive` | src/lib.rs:78-88 | `is_alive(x, y)` is true exactly when `(x, y)` is inside the grid (not negative, not past its row or the grid) and that cell is `Alive` |
| `Life.NeighbourCount` | src/lib.rs:90-104 | the neighbour count is the number of live cells among the eight around `(x, y)`, and is at most 8 |
| `Life.WindowCountComplete` | src/lib.rs:93-102 | the two loops over the offsets -1, 0, 1 with the centre skipped visit exactly the eight neighbours |
| `Life.Neighbours` | src/lib.rs:90-104 | the nested loops with the running sum return the eight-neighbour count |
| `Life.NeighboursIgnoreSelf` | src/lib.rs:95-97 | the cell itself is never counted: grids that differ at most at `(x, y)` give `(x, y)` the same count |
| `Life.DeadGridHasNoNeighbours` | src/lib.rs:98-100 | in a grid with no live cell every count is zero |
| `Life.NextCell` | src/lib.rs:65-70 | a cell is alive after the rule exactly when it was alive with 2 or 3 live neighbours or dead with exactly 3 |
| `Life.Tick` | src/lib.rs:54-76 | `tick` keeps the number of rows and the length of every row |
| `Life.TickRule` | src/lib.rs:60-71 | after a tick, `(x, y)` is alive exactly when it is in the grid and either survived with 2 or 3 neighbours or was born with 3 |
| `Life.TickPreservesShape` | src/lib.rs:54-76 | `tick` keeps a rectangular grid rectangular and keeps its size |
| `Life.EmptyIsFixedPoint` | src/lib.rs:204-233 | an all-dead grid `empty(x, y)` is unchanged by `tick` |
| `LifeExamples.CountRing` | src/lib.rs:146-154 | the centre of a ring of eight live cells has 8 live neighbours |
| `LifeExamples.CountFarCorner` | src/lib.rs:156-164 | the corner away from the live row and column has no live neighbour |
| `LifeExamples.CountNearCorner` | src/lib.rs:166-174 | the corner where the live row and column meet has 2 |
| `LifeExamples.CountTopEdge` | src/lib.rs:176-184 | the middle of the top edge of that test grid has 3 |
| `LifeExamples.TooManyNeighbours` | src/lib.rs:187-202 | a fully live 3 by 3 grid ticks to its four corners |
| `LifeExamples.LonelyPair` | src/lib.rs:206-218 | two adjacent live cells both die |
| `LifeExamples.LonelyCell` | src/lib.rs:220-232 | a single live cell dies |
| `LifeExamples.NewLife` | src/lib.rs:235-250 | an L of three live cells ticks to a 2 by 2 block |
| `LifeExamples.EmptyThreeByFour` | src/lib.rs:252-262 | `empty(3, 4)` is three rows of four dead cells |
| `View.ToggledAt` | src/view.rs:141-147 | a press toggles exactly the addressed cell when it is on the grid, keeps every other cell and the shape, and changes nothing off the grid |
| `View.AfterEvent` | src/view.rs:125-153 | no event makes the grid ragged, and an ignored event changes no state |
| `View.AfterLayout` | src/view.rs:115-123 | `layout` never changes `pause`, keeps the grid rectangular, and on a new size leaves `size.x` rows of `size.y` cells |
| `View.Render` | src/view.rs:91-94 | a live cell is drawn as `*` and a dead one as `.` |
| `Life.Parse` | src/lib.rs:117 | the test helper reads `*` as alive and anything else as dead |
| `Life.ParseRows` | src/lib.rs:111-122 | reading rows of cell strings keeps the number of rows and their lengths, and each cell is read from its own string by `Parse` |
| `View.ResizableGrid.Default` | src/view.rs:15-22 | the default view has a grid without rows and is paused |
| `View.ResizableGrid.AsRows` | src/view.rs:85-98 | `as_rows` has the grid's shape, with `*` exactly at the live cells and `.` at the others |
| `View.ResizableGrid.Reset` | src/view.rs:100-103 | `reset` replaces the grid by a random one of the same size, which is rectangular, and keeps `pause` |
| `View.ResizableGrid.Layout` | src/view.rs:115-123 | the new state is `AfterLayout` of the old one, and the grid stays rectangular |
| `View.ResizableGrid.OnEvent` | src/view.rs:125-153 | the new state and the result are `AfterEvent` of the old state, and the grid stays rectangular |
| `View.AsRowsRoundTrip` | src/view.rs:85-98 | reading the drawn rows back as the unit tests do gives the grid again |
| `View.ToggleTwice` | src/view.rs:141-147 | two presses at one position give back the grid |
| `View.RefreshIgnoresPause` | src/view.rs:127-129 | `Refresh` ticks the grid whether paused or not, keeps `pause` and is consumed |
| `View.SpaceTogglesPause` | src/view.rs:130 | a space flips `pause`, keeps the grid and is consumed; two spaces restore the state |
| `View.PressTogglesCell` | src/view.rs:136-147 | a press is consumed, keeps `pause` and the shape, changes exactly the addressed cell when it is on the grid and nothing otherwise; two presses restore the state |
| `View.MouseNonPressIsNoop` | src/view.rs:136-147 | a release, hold or wheel event is consumed and changes nothing |
| `View.IgnoredEvents` | src/view.rs:149 | an event is ignored exactly when it is not a refresh, a space, an `r` or a mouse event, and then nothing changes |
| `View.ResetKeyOpensDialog` | src/view.rs:131-135 | only `r` returns the callback that opens the reset dialog, and it changes no state |
| `View.LayoutSameSize` | src/view.rs:116-119 | at the grid's own size `layout` keeps `pause`, and keeps the grid when paused or ticks it otherwise |
| `View.LayoutSettles` | src/view.rs:115-123 | after a layout at a new size with rows, a second layout at that size does not re-seed |
| `View.NoRowsAlwaysReseeds` | src/view.rs:115-123 | a layout at a size with no rows but some columns always re-seeds, to a grid without rows |

## Left out

- `src/bin/server.rs` (the telnet server: TCP listener, option negotiation,
  the channel to the UI thread) and `src/main.rs` (opening the terminal and
  running the event loop): network I/O and threads over libraries that are
  not part of this model.
- The random generator and the `f64` probability of `Grid::random`, of
  `reset` and of the reset dialog: replaced by the `coin` parameter.
- `help_dialog`, `reset_dialog` and `draw`: construction of UI widgets and
  printing through the UI library. The OK buttons of both dialogs also change
  the view from outside `on_event`, through a lookup of the view by name:
  `help_dialog`'s sets `pause` to false (src/view.rs:35-40), and
  `reset_dialog`'s resets the grid and sets `pause` to false
  (src/view.rs:70-79). Only `Reset` itself is modelled.
- The callback returned for `r`: modelled as the tag `ShowResetDialog`, not
  as the closure that opens the dialog.
- `required_size`: it returns its argument unchanged.
- The `make_grid` test helper's splitting of a string into lines and words;
  the tests' grids are written out as sequences instead (only its
  cell rule is modelled, as `Life.Parse`).
- The `offset` of a mouse event is carried but unused, as in the source;
  positions index the grid directly.
- Machine integer widths: coordinates are unbounded naturals here, so the
  `usize` to `isize` conversion in `neighbours` cannot overflow; in the
  source a grid never has that many rows.
- Cursive's event variants other than `Refresh`, `Char` and `Mouse` are
  represented by a few stand-ins (`CtrlChar`, `AltChar`, `Key`,
  `WindowResize`, `Unknown`), all of which the view ignores.
