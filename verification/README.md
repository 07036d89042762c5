# PathFinding.js visualisation controller, modelled in Dafny

This project models the interactive part of the PathFinding.js demo page
(`visual/main.js`). The page shows a 64 by 36 grid of cells. The user drags a
start and an end marker and draws or erases walls with the pointer. A
search runs a path finder on a copy of the grid. The finder's node updates
are then replayed on the grid a few at a time. The model covers:

- **Coordinates** (`coordinates.dfy`): pixel to cell and cell to pixel, with
  30-pixel cells.
- **SVG path text** (`svg_path.dfy`): the text of an SVG path drawn through
  the centres of a path's cells. A parser shows that the text determines the
  path.
- **The controller's state machine** (`state_machine.dfy`):
  - The events table as data, plus the library's `can`.
  - A second, event-by-event reference definition, with a lemma that the two
    agree.
  - The per-state facts the user interface relies on.
- **The operation log** (`recorder.dfy`): the records the hook on
  `Node.set` appends, and the specification of draining them. A step shifts
  records off the front until one of an attribute the view can show is
  found.
- **The walkability grid** (`grid.dfy`): a class over a two-dimensional
  array.
- **The view** (`presentation.dfy`): a class holding the rectangles, their
  fills, the wall list and the dirty list. It covers generating the
  rectangles, `setAttributeAt`, and what `clearFootprints` does to the
  dirty list.
- **The controller** (`interaction.dfy`): a class with these parts:
  - The pointer handlers and the marker positions.
  - The hooked `Node.set`.
  - Entering Starting (clear the footprints, then search).
  - One playback tick (`step`), and playback run to `finish`.

Behaviour of the code worth knowing, all modelled as the code does it:

- **The dirty list is never cleared and cannot be walked.**
  - `setAttributeAt` pushes each cell as two plain numbers
    (`visual/main.js:163`, `:167`).
  - `clearFootprints` reads each element as an `[x, y]` pair
    (`visual/main.js:491-492`). A number has no elements, so both
    coordinates are `undefined` and the repaint throws. This happens at the
    first element of any non-empty list.
  - The exception escapes the enter-Starting callback. Once playback has
    shown an opened or closed record, every later `start` or `restart`
    therefore leaves the machine in Starting without searching
    (`Controller.EnterStarting`, `Presentation.FlatListFaults`). Until
    then the list is empty, and start and restart search normally.
- **Playback does not stop when pausing.**
  - Pausing does not stop the playback timer, and `step` does not look at
    the state, so `Controller.Step` may be called in any state.
  - When the log runs dry, `finish` is fired. It is only accepted in
    Searching, and only `onfinish` stops the timer (`visual/main.js:441`).
- **`restart` is allowed from Searching**, while the log may still hold
  records.
  - The new trace is appended behind them. Everything left of the old log
    plays first, then the new trace (`Recorder.FilterAppend`).
  - `onsearch` overwrites the stored timer without stopping the old one
    (`visual/main.js:416`). Two timers then drain the same log, and
    `finish` stops only the newer one. Timers are not modelled.
- **`onfinish` reports the remaining length of the log.** This is 0 when
  `finish` comes from `step`, not the number of operations recorded.
- **Writing a cell outside the grid throws.** Reading one gives "not
  walkable", so a press outside the grid fires `eraseWall` and then throws.
- **`modify` is declared but never fired.** Editing the grid from Finished
  goes back to Ready, not to Modified (`Interaction.PressThenRelease`).

## Model

| member | source | states |
|---|---|---|
| Coordinates.ToGridCoordinate | visual/main.js:214-219 | the cell returned is the one whose 30-pixel square contains the pixel (floor division) |
| Coordinates.ToPageCoordinate | visual/main.js:223-228 | the pixel returned lies in the given cell and is a multiple of the node size, so it is the cell's top-left corner |
| Coordinates.RoundTrip | visual/main.js:214-228 | mapping a cell to its page coordinate and back gives the same cell |
| Coordinates.CellOfPixel | visual/main.js:214-228 | a pixel maps to a cell exactly when it lies in that cell's square (both directions) |
| SvgPath.Centre | visual/main.js:202-207 | the point `x*size + size/2` lies in cell x, exactly half a cell from its corner |
| SvgPath.LineTos | visual/main.js:205-208 | one line-to per later waypoint, each inside that waypoint's cell |
| SvgPath.Commands | visual/main.js:199-210 | one command per waypoint, a move first and lines after, each inside its waypoint's cell |
| SvgPath.BuildSvgPath | visual/main.js:199-210 | the SVG text of a non-empty path parses back to exactly the path's commands |
| SvgPath.NatToString | visual/main.js:202-207 | the decimal text of a number is non-empty and all digits |
| SvgPath.IntToString | visual/main.js:202-207 | the text of a whole number consists only of digits and a minus sign |
| SvgPath.NatRoundTrip | visual/main.js:202-207 | reading back the decimal text of a natural number gives the number |
| SvgPath.IntRoundTrip | visual/main.js:202-207 | reading back the text of a whole number gives the number |
| SvgPath.RenderThenRead | visual/main.js:202-207 | one command's text is read back as that command, leaving the text after it |
| SvgPath.JoinThenParse | visual/main.js:199-210 | the joined command texts parse back to exactly the commands, in order |
| SvgPath.SvgPathDecodes | visual/main.js:199-210 | the SVG text of a path parses back to its commands, and the cells under their points are the waypoints in order |
| SvgPath.SvgPathInjective | visual/main.js:199-210 | two paths with the same SVG text are the same path |
| StateMachine.RowIndex | visual/main.js:260-284 | every event is named by a row of the table |
| StateMachine.Can | visual/main.js:258-285 | the table lookup allows an event exactly in the states the event-by-event reference lists for it (every state for reset) |
| StateMachine.Next | visual/main.js:258-285 | a next state exists exactly when the event is allowed in the current state |
| StateMachine.Fire | visual/main.js:258-285 | a rejected event leaves the state unchanged |
| StateMachine.TableAgreesWithReference | visual/main.js:260-284 | for every state and event: allowed exactly in the states the row lists (all for reset); the target is the row's single to-state |
| StateMachine.DeclaredOnce | visual/main.js:260-284 | no event is named by two rows |
| StateMachine.EnabledInReady | visual/main.js:260-284 | in Ready exactly start, reset, dragStart, dragEnd, drawWall and eraseWall are allowed |
| StateMachine.EnabledInSearching | visual/main.js:260-284 | while searching exactly pause, finish, restart and reset are allowed |
| StateMachine.EnabledInPaused | visual/main.js:260-284 | when paused exactly resume, cancel and reset are allowed |
| StateMachine.EnabledInFinished | visual/main.js:260-284 | when finished exactly restart, clear, modify, reset and the four pointer edits are allowed |
| StateMachine.EditingExits | visual/main.js:268-283 | the four editing states allow only rest and reset, both to Ready |
| StateMachine.ResetFromAnywhere | visual/main.js:268 | reset is allowed in every state and leads to Ready |
| StateMachine.EnteringStarting | visual/main.js:262-272 | Starting is entered only by start from Ready/Modified or restart from Searching/Finished; Searching only by search from Starting or resume from Paused |
| StateMachine.EnteringFinished | visual/main.js:264 | Finished is entered only by finish from Searching |
| StateMachine.NeverUninitializedAgain | visual/main.js:259-284 | no event leads back to the initial state |
| StateMachine.ResetThenEditThenStart | visual/main.js:268-283 | whatever the state, reset, one pointer edit and its release end in Ready, where start is allowed |
| Recorder.Shift | visual/main.js:425-432 | a step's shifting finds the first supported record and leaves what follows it, or finds none exactly when no record is supported |
| Recorder.StepKeepsOrder | visual/main.js:425-434 | one step applies the first record of the filtered log and leaves the rest of the filtered log |
| Recorder.PlaybackIsFilter | visual/main.js:421-435 | the records applied over successive steps are the log filtered to 'opened' and 'closed', in log order |
| Recorder.TicksToDrain | visual/main.js:425-432 | a log is drained in one step per supported record plus the finishing step, at most n+1 steps |
| Recorder.FilterShrinks | visual/main.js:425-432 | no record is applied more often than it was recorded; applied records are supported and recorded |
| Recorder.FilterAppend | visual/main.js:325-332 | records appended behind an undrained log are shown after everything still in it |
| Recorder.UnsupportedOnlyFinishes | visual/main.js:425-430 | a log holding only unsupported records applies nothing and finishes on the first step |
| Presentation.Component | visual/main.js:491-492 | `entry[k]` is defined only for the two components of a pair |
| Presentation.Paint | visual/main.js:177-181 | colouring changes the fill of exactly one rectangle and nothing else |
| Presentation.PaintKeepsLayout | visual/main.js:177-181 | colouring keeps the grid of rectangles in place |
| Presentation.FillFor | visual/main.js:150-176 | only 'walkable', 'opened' and 'closed' repaint; the blocked fill exactly for a falsy walkable |
| Presentation.DirtyEntries | visual/main.js:161-168 | each shown record pushes its x and then its y as two plain numbers |
| Presentation.DirtyEntriesSnoc | visual/main.js:161-168 | showing one more record appends its two numbers to the dirty list |
| Presentation.PaintAll | visual/main.js:150-181 | replaying records keeps the shape of the rectangles |
| Presentation.PaintAllAt | visual/main.js:150-181 | after replay, a rectangle has the fill of the last record that painted it, or its old fill |
| Presentation.PaintAllSnoc | visual/main.js:150-181 | replaying one more record paints on top of the earlier ones |
| Presentation.Restore | visual/main.js:483-496 | walking the dirty list keeps the shape of the rectangles |
| Presentation.FlatListFaults | visual/main.js:483-496 | on the list as the view fills it, clearFootprints throws exactly when the list is non-empty and repaints nothing |
| Presentation.PairListRepaints | visual/main.js:483-496 | a list of in-grid pairs would be walked to the end, resetting exactly the listed cells to normal |
| Presentation.View.constructor | visual/main.js:50-57 | the size is kept and both lists start empty |
| Presentation.View.GenerateGrid | visual/main.js:67-118 | numRows rows of numCols rectangles, each at its cell's page coordinate with the normal fill |
| Presentation.View.SetAttributeAt | visual/main.js:150-176 | the repaint for each attribute; a falsy walkable appends the cell to the wall list; opened/closed append x then y to the dirty list; other attributes change nothing |
| PFGrid.Grid.constructor | visual/main.js:297 | a new grid of the given size with every cell walkable |
| PFGrid.Grid.IsWalkableAt | visual/main.js:359-361 | a cell outside the grid reads as not walkable |
| PFGrid.Grid.SetWalkableAt | visual/main.js:576-579 | the cell gets the flag and no other cell changes |
| Interaction.PressEvent | visual/main.js:341-362 | in Ready or Finished exactly one of the four pointer events is picked, each in both directions: dragStart on the start marker; else dragEnd on the end marker; else drawWall on a walkable cell; else eraseWall. In any other state nothing is picked |
| Interaction.PressThenRelease | visual/main.js:341-396 | a press in Ready or Finished enters an editing state and the release returns to Ready |
| Interaction.MoveEffectOf | visual/main.js:363-391 | nothing over a marker or outside the editing states; a dragged marker moves exactly when the cell is free of markers and walkable; drawing or erasing writes blocked or walkable exactly when the cell is free of markers |
| Interaction.ReplayOrder | visual/main.js:425-434 | the record a step applies is the next one of the filtered log |
| Interaction.ReplayStep | visual/main.js:425-434 | a step that finds a record extends the replay by exactly that record's repaint and dirty entries |
| Interaction.ReplayEnd | visual/main.js:425-430 | a step that finds the log exhausted has shown the whole filtered log |
| Interaction.Controller.constructor | visual/main.js:293-316 | a fresh 64 by 36 grid with every cell walkable; a fresh view whose generated rectangles all have the normal fill; empty wall list, dirty list, log and path; markers five cells left and right of the centre |
| Interaction.Controller.IsStartPos | visual/main.js:580-582 | true exactly on the start marker's cell |
| Interaction.Controller.IsEndPos | visual/main.js:583-585 | true exactly on the end marker's cell |
| Interaction.Controller.IsStartOrEndPos | visual/main.js:580-588 | a cell holds a marker exactly when it is the start or the end cell |
| Interaction.Controller.SetStartPos | visual/main.js:566-570 | the start marker moves, nothing else changes |
| Interaction.Controller.SetEndPos | visual/main.js:571-575 | the end marker moves, nothing else changes |
| Interaction.Controller.SetWalkableAt | visual/main.js:576-579 | the grid cell and its rectangle get the flag, a wall is listed; outside the grid it throws and nothing changes |
| Interaction.Controller.Trigger | visual/main.js:258-285 | an event without a modelled callback fires when allowed and changes nothing else |
| Interaction.Controller.MouseDown | visual/main.js:341-362 | the state after a press is the target of the event mousedown picks; only drawWall/eraseWall write, and only the pressed cell; eraseWall outside the grid throws after the state changed |
| Interaction.Controller.MouseMove | visual/main.js:363-391 | the marker or cell changes exactly as MoveEffectOf says; a write outside the grid throws and changes nothing |
| Interaction.Controller.MouseUp | visual/main.js:392-396 | an editing state goes back to Ready, any other state is kept |
| Interaction.Controller.RecordSet | visual/main.js:321-334 | each hooked call appends exactly one record at the end of the log |
| Interaction.Controller.OnSearch | visual/main.js:403-420 | the finder's calls are appended to the log in call order and its path is kept |
| Interaction.Controller.ClearFootprints | visual/main.js:483-496 | the rectangles and the fault are those of walking the dirty list; the list itself is not cleared |
| Interaction.Controller.EnterStarting | visual/main.js:475-482 | a non-empty dirty list makes entering Starting throw and stay in Starting; otherwise search fires and the trace is logged |
| Interaction.Controller.Start | visual/main.js:271 | start fires from Ready or Modified, then enters Starting as above |
| Interaction.Controller.Restart | visual/main.js:272 | restart fires from Searching or Finished, then enters Starting as above; the new trace goes behind the old log |
| Interaction.Controller.Finish | visual/main.js:440-447 | finish is accepted only in Searching and then reports the path length and the log length |
| Interaction.Controller.Step | visual/main.js:421-435 | a tick either shows the first supported record and leaves the rest of the log, or empties the log and fires finish |
| Interaction.Controller.RunPlayback | visual/main.js:416-447 | ticks from Searching until finish show exactly the filtered log in order, in one tick per record plus one, ending in Finished with 0 operations left |

## Left out

- Drawing is not modelled: Raphael shapes, animation, zooming, the two
  marker rectangles of the view, path styles and the progress text. A
  rectangle is its position and the fill it is animated towards.
- `drawPath` is not modelled. It is never called, and it reaches for an
  undefined global `paper`. Its SVG text is modelled as `SvgPath.BuildSvgPath`.
- SvgPath.BuildSvgPath: requires a non-empty path. On an empty path the
  source throws, and its only caller returns before calling it.
- Timers are not modelled (`setInterval`, `clearInterval`, `setTimeout`,
  `async.series`). `Controller.Step` is one tick.
  `Controller.RunPlayback` is the ticks of a search left alone up to
  `finish`. Pause and resume between ticks are modelled by calling
  `Trigger` between `Step` calls.
- `Date.now` and the elapsed time shown in the statistics are not modelled.
- The `StateMachine.ASYNC` handshake of leaving the initial state is not
  modelled. `init` is fired through `Trigger`.
- The path finders, their heuristics and `Panel` (finder choice, options)
  are not part of this model. A search is given the sequence of `Node.set`
  calls the finder makes and the path it returns.
- The javascript-state-machine library is not part of this model. A
  rejected event leaves the state unchanged, and the error the library
  reports for it is not modelled. Callbacks run in this order: the state
  changes, then enter-state callbacks run, then the after-event callback.
- PF.Grid is not part of this model. Its grid is a matrix of walkable flags.
  Out of the grid, `isWalkableAt` reads false and `setWalkableAt` throws.
- `setDefaultStartEndPos` is not modelled: it reads the window size and
  rounds a floating division. The constructor takes the centre cell it
  computes.
- Button relabelling in the enter-state callbacks, `showStats` HTML and
  console output are not modelled.
- `clearDirtyCoords` is not modelled. It is declared twice and never called.
- Numbers are whole numbers. Fractional pixel positions and JavaScript's
  other number values are not modelled.
- Interaction.Controller.OnSearch: requires every traced record to be on
  the grid. A finder only updates nodes of the grid it searches.
- Presentation.View.SetAttributeAt: requires a grid cell for the
  attributes that repaint. Outside the grid the source throws in
  `colorizeNodeAt`. Every caller in the model passes a cell of the grid.
- Interaction.Controller.Trigger: requires an event without a modelled
  callback. Start, restart, search, finish, drawWall and eraseWall have
  their own methods.
