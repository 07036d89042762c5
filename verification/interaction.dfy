/**
 * The controller of the visualisation (the `Controller` object): it owns the
 * walkability grid and the state machine, turns pointer events into grid edits
 * and marker moves, records the finder's node updates and plays them back on
 * the view one step at a time.
 *
 * The finder is not part of this model: a search is given the sequence of
 * `Node.set` calls the finder makes and the path it returns. The timer that
 * calls `step` periodically is not modelled either: `Step` is one tick, and
 * `RunPlayback` is the ticks of an undisturbed search up to `finish`.
 */
module Interaction {
  import opened Options
  import opened Coordinates
  import opened StateMachine
  import opened Recorder
  import opened PFGrid
  import opened Presentation

  /** Number of grid cells horizontally and vertically (Controller.gridSize). */
  const GridCols: nat := 64
  const GridRows: nat := 36

  /** What `onfinish` reports: the length of the found path and the operations left in the log. */
  datatype Stats = Stats(pathLength: nat, operationCount: nat)

  /**
   * The event a press fires, by priority: the start marker drags it, the end
   * marker drags it, a walkable cell starts drawing walls, a blocked cell
   * starts erasing them; each only when the machine allows that event.
   */
  function PressEvent(s: State, onStart: bool, onEnd: bool, walkable: bool): (r: Option<Event>)
    ensures r.Some? ==> Can(s, r.value) && r.value in {DragStart, DragEnd, DrawWall, EraseWall}
    ensures r.Some? <==> s == Ready || s == Finished
    ensures r == Some(DragStart) <==> (s == Ready || s == Finished) && onStart
    ensures r == Some(DragEnd) <==> (s == Ready || s == Finished) && !onStart && onEnd
    ensures r == Some(DrawWall) <==> (s == Ready || s == Finished) && !onStart && !onEnd && walkable
    ensures r == Some(EraseWall) <==> (s == Ready || s == Finished) && !onStart && !onEnd && !walkable
  {
    TableAgreesWithReference(s, DragStart);
    TableAgreesWithReference(s, EraseWall);
    if Can(s, DragStart) && onStart then Some(DragStart)
    else if Can(s, DragEnd) && onEnd then Some(DragEnd)
    else if Can(s, DrawWall) && walkable then Some(DrawWall)
    else if Can(s, EraseWall) && !walkable then Some(EraseWall)
    else None
  }

  /** The walkable flag a press writes to the pressed cell, if any. */
  function PressWrite(e: Option<Event>): Option<bool> {
    if e == Some(DrawWall) then Some(false)
    else if e == Some(EraseWall) then Some(true)
    else None
  }

  /**
   * A press that fires an event puts the machine in an editing state, and the
   * release that follows brings it back to Ready, also when the press came in
   * Finished: editing after a search never passes through Modified.
   */
  lemma PressThenRelease(s: State, onStart: bool, onEnd: bool, walkable: bool)
    requires s == Ready || s == Finished
    ensures var e := PressEvent(s, onStart, onEnd, walkable);
            e.Some? && Editing(Fire(s, e.value)) && Fire(Fire(s, e.value), Rest) == Ready
  {
    var e := PressEvent(s, onStart, onEnd, walkable).value;
    TableAgreesWithReference(s, e);
    EditingExits(Target(e), Rest);
  }

  /** What a pointer move does, given the state and the cell under the pointer. */
  datatype MoveEffect = Unchanged | MoveStart | MoveEnd | SetWalkable(walkable: bool)

  /**
   * mousemove: nothing over a marker; while dragging a marker, move it onto
   * walkable cells only; while drawing or erasing, write the cell; nothing in
   * any other state.
   */
  function MoveEffectOf(s: State, onMarker: bool, walkable: bool): (r: MoveEffect)
    ensures onMarker || !Editing(s) ==> r == Unchanged
    ensures r == MoveStart <==> !onMarker && s == DraggingStart && walkable
    ensures r == MoveEnd <==> !onMarker && s == DraggingEnd && walkable
    ensures r.SetWalkable? <==> !onMarker && (s == DrawingWall || s == ErasingWall)
    ensures r.SetWalkable? ==> (r.walkable <==> s == ErasingWall)
  {
    if onMarker then Unchanged
    else match s
      case DraggingStart => if walkable then MoveStart else Unchanged
      case DraggingEnd => if walkable then MoveEnd else Unchanged
      case DrawingWall => SetWalkable(false)
      case ErasingWall => SetWalkable(true)
      case _ => Unchanged
  }

  /**
   * Playback so far: the records `shown` were applied, in order, to the
   * rectangles `rects0` and pushed onto the dirty list `dirty0`, giving
   * `rects` and `dirty`; the log `rest` is what is left of `ops0`.
   */
  ghost predicate Replayed(rects0: seq<seq<Rect>>, dirty0: seq<Entry>, ops0: seq<Op>,
                           shown: seq<Op>, rects: seq<seq<Rect>>, dirty: seq<Entry>, rest: seq<Op>)
  {
    (forall i :: 0 <= i < |shown| ==> InRects(rects0, shown[i].x, shown[i].y)) &&
    shown + Filter(rest) == Filter(ops0) &&
    rects == PaintAll(rects0, shown) &&
    dirty == dirty0 + DirtyEntries(shown)
  }

  /** The record a step applies is the next one the filtered log promises. */
  lemma ReplayOrder(ops0: seq<Op>, shown: seq<Op>, log: seq<Op>)
    requires shown + Filter(log) == Filter(ops0) && Shift(log).Found?
    ensures (shown + [Shift(log).op]) + Filter(Shift(log).rest) == Filter(ops0)
  {
    StepKeepsOrder(log);
    assert (shown + [Shift(log).op]) + Filter(Shift(log).rest) == shown + Filter(log);
  }

  /** Pushing one more record's coordinates extends the dirty list by that record's entries. */
  lemma ReplayDirty(dirty0: seq<Entry>, shown: seq<Op>, op: Op)
    ensures dirty0 + DirtyEntries(shown + [op]) == (dirty0 + DirtyEntries(shown)) + [Num(op.x), Num(op.y)]
  {
    DirtyEntriesSnoc(shown, op);
  }

  /** A step that finds a record extends the replay by that record. */
  lemma ReplayStep(rects0: seq<seq<Rect>>, dirty0: seq<Entry>, ops0: seq<Op>,
                   shown: seq<Op>, rects: seq<seq<Rect>>, dirty: seq<Entry>, log: seq<Op>)
    requires Replayed(rects0, dirty0, ops0, shown, rects, dirty, log)
    requires Shift(log).Found? && InRects(rects, Shift(log).op.x, Shift(log).op.y)
    ensures var op := Shift(log).op;
            FillFor(op.attr, op.value).Some? &&
            Replayed(rects0, dirty0, ops0, shown + [op],
                     Paint(rects, op.x, op.y, FillFor(op.attr, op.value).value),
                     dirty + [Num(op.x), Num(op.y)], Shift(log).rest)
  {
    var op := Shift(log).op;
    ReplayOrder(ops0, shown, log);
    PaintAllSnoc(rects0, shown, op);
    ReplayDirty(dirty0, shown, op);
  }

  /** A step that finds the log exhausted leaves a finished replay. */
  lemma ReplayEnd(rects0: seq<seq<Rect>>, dirty0: seq<Entry>, ops0: seq<Op>,
                  shown: seq<Op>, rects: seq<seq<Rect>>, dirty: seq<Entry>, log: seq<Op>)
    requires Replayed(rects0, dirty0, ops0, shown, rects, dirty, log)
    requires Shift(log).Exhausted?
    ensures Replayed(rects0, dirty0, ops0, shown, rects, dirty, [])
    ensures shown == Filter(ops0)
  {
    StepKeepsOrder(log);
    assert shown + Filter(log) == shown;
  }

  class Controller {
    /** The walkability grid the user edits. */
    const grid: Grid
    const view: View
    /** The state machine's current state. */
    var current: State
    var startX: int
    var startY: int
    var endX: int
    var endY: int
    /** The operation log the hook on `Node.set` appends to and playback drains. */
    var operations: seq<Op>
    /** The path the last search found. */
    var path: seq<Coord>

    /** The grid and the view have the controller's size, and every logged record is on the grid. */
    ghost predicate Shaped()
      reads this, view
    {
      grid.Valid() && grid.width == GridCols && grid.height == GridRows &&
      view.Valid() && view.numCols == GridCols && view.numRows == GridRows &&
      forall i :: 0 <= i < |operations| ==>
        InGrid(Coord(operations[i].x, operations[i].y), GridCols, GridRows)
    }

    /** Shaped, and the view's dirty list holds only the plain numbers the view pushes. */
    ghost predicate Valid()
      reads this, view
    {
      Shaped() && Flat(view.dirtyCoords)
    }

    /** Neither marker moved. */
    twostate predicate MarkersKept()
      reads this
    {
      startX == old(startX) && startY == old(startY) && endX == old(endX) && endY == old(endY)
    }

    /**
     * The view shows the record `op`: its rectangle took the fill of its
     * attribute, and its x and y were pushed onto the dirty list.
     */
    twostate predicate Showed(op: Op)
      reads this, view
    {
      InRects(old(view.rects), op.x, op.y) && FillFor(op.attr, op.value).Some? &&
      view.rects == Paint(old(view.rects), op.x, op.y, FillFor(op.attr, op.value).value) &&
      view.dirtyCoords == old(view.dirtyCoords) + [Num(op.x), Num(op.y)]
    }

    /**
     * The grid and view are as before, except that `w`, when present, was
     * written to cell `c` by setWalkableAt: the grid flag, the rectangle's fill
     * and, for a wall, the wall list.
     */
    twostate predicate EditedAt(c: Coord, w: Option<bool>)
      reads this, grid.cells, view
    {
      (forall j, i :: 0 <= j < grid.cells.Length0 && 0 <= i < grid.cells.Length1 &&
                      (w.None? || Coord(i, j) != c) ==>
         grid.cells[j, i] == old(grid.cells[j, i])) &&
      view.dirtyCoords == old(view.dirtyCoords) &&
      if w.None? then
        view.rects == old(view.rects) && view.wallCoords == old(view.wallCoords)
      else
        0 <= c.y < grid.cells.Length0 && 0 <= c.x < grid.cells.Length1 &&
        grid.cells[c.y, c.x] == w.value &&
        InRects(old(view.rects), c.x, c.y) &&
        view.rects == Paint(old(view.rects), c.x, c.y, if w.value then Normal else Blocked) &&
        view.wallCoords == if w.value then old(view.wallCoords) else old(view.wallCoords) + [c]
    }

    /**
     * Creating the machine in its initial state and leaving that state
     * (onleavenone): a fresh all-walkable grid, the view's lists emptied and
     * its rectangles generated, the default markers five cells left and right
     * of the visible centre, and the hook's log emptied.
     */
    constructor (centerX: int, centerY: int)
      ensures Valid()
      ensures current == Uninitialized
      ensures (startX, startY) == (centerX - 5, centerY) && (endX, endY) == (centerX + 5, centerY)
      ensures operations == [] && path == [] && view.wallCoords == [] && view.dirtyCoords == []
      ensures fresh(grid) && fresh(grid.cells) && fresh(view)
      ensures forall y, x :: 0 <= y < GridRows && 0 <= x < GridCols ==> grid.cells[y, x]
      ensures forall y, x :: 0 <= y < GridRows && 0 <= x < GridCols ==> view.rects[y][x].fill == Normal
    {
      grid := new Grid(GridCols, GridRows);
      var v := new View(GridCols, GridRows);
      v.GenerateGrid();
      view := v;
      current := Uninitialized;
      startX, startY := centerX - 5, centerY;
      endX, endY := centerX + 5, centerY;
      operations := [];
      path := [];
    }

    /** Whether (gridX, gridY) is the start marker's cell. */
    predicate IsStartPos(gridX: int, gridY: int): (r: bool)
      reads this
      ensures r <==> Coord(gridX, gridY) == Coord(startX, startY)
    {
      gridX == startX && gridY == startY
    }

    /** Whether (gridX, gridY) is the end marker's cell. */
    predicate IsEndPos(gridX: int, gridY: int): (r: bool)
      reads this
      ensures r <==> Coord(gridX, gridY) == Coord(endX, endY)
    {
      gridX == endX && gridY == endY
    }

    /** Whether (gridX, gridY) holds one of the two markers. */
    predicate IsStartOrEndPos(gridX: int, gridY: int)
      reads this
      ensures IsStartOrEndPos(gridX, gridY) <==>
              Coord(gridX, gridY) in {Coord(startX, startY), Coord(endX, endY)}
    {
      IsStartPos(gridX, gridY) || IsEndPos(gridX, gridY)
    }

    method SetStartPos(gridX: int, gridY: int)
      modifies this
      ensures startX == gridX && startY == gridY
      ensures endX == old(endX) && endY == old(endY) && current == old(current)
      ensures operations == old(operations) && path == old(path)
    {
      startX, startY := gridX, gridY;
    }

    method SetEndPos(gridX: int, gridY: int)
      modifies this
      ensures endX == gridX && endY == gridY
      ensures startX == old(startX) && startY == old(startY) && current == old(current)
      ensures operations == old(operations) && path == old(path)
    {
      endX, endY := gridX, gridY;
    }

    /**
     * setWalkableAt: write the walkable flag of a cell to the grid, then
     * repaint it on the view. Outside the grid the grid's node lookup throws
     * before anything is written, which `faulted` reports.
     */
    method SetWalkableAt(gridX: int, gridY: int, walkable: bool) returns (faulted: bool)
      requires Valid()
      modifies grid.cells, view
      ensures Valid()
      ensures faulted <==> !InGrid(Coord(gridX, gridY), GridCols, GridRows)
      ensures EditedAt(Coord(gridX, gridY), if faulted then None else Some(walkable))
    {
      faulted := !InGrid(Coord(gridX, gridY), GridCols, GridRows);
      if faulted {
        return;
      }
      grid.SetWalkableAt(gridX, gridY, walkable);
      view.SetAttributeAt(gridX, gridY, "walkable", Flag(walkable));
    }

    /**
     * Fire an event whose callbacks only relabel buttons: the button events
     * pause, resume, cancel, clear and reset, the never-fired modify, the
     * pointer events dragStart, dragEnd and rest, and the deferred init. A
     * rejected event changes nothing.
     */
    method Trigger(e: Event) returns (fired: bool)
      requires e !in {Event.Start, Event.Restart, Search, Event.Finish, DrawWall, EraseWall}
      modifies this
      ensures fired == Can(old(current), e)
      ensures current == Fire(old(current), e)
      ensures MarkersKept()
      ensures operations == old(operations) && path == old(path)
    {
      fired := Can(current, e);
      current := Fire(current, e);
    }

    /**
     * mousedown: fire the first applicable of dragStart, dragEnd, drawWall and
     * eraseWall for the cell under the pointer (PressEvent); drawWall and eraseWall then
     * write that cell. A cell outside the grid reads as blocked, so a press
     * there fires eraseWall, whose write then throws (`faulted`) after the
     * machine has already moved to ErasingWall.
     */
    method MouseDown(pageX: int, pageY: int) returns (faulted: bool)
      requires Valid()
      modifies this, grid.cells, view
      ensures Valid()
      ensures var c := ToGridCoordinate(pageX, pageY);
              var e := PressEvent(old(current), old(IsStartPos(c.x, c.y)), old(IsEndPos(c.x, c.y)),
                                  old(grid.IsWalkableAt(c.x, c.y)));
              current == (if e.Some? then Target(e.value) else old(current)) &&
              (faulted <==> e == Some(EraseWall) && !InGrid(c, GridCols, GridRows)) &&
              EditedAt(c, if faulted then None else PressWrite(e))
      ensures MarkersKept()
      ensures operations == old(operations) && path == old(path)
    {
      var c := ToGridCoordinate(pageX, pageY);
      var e := PressEvent(current, IsStartPos(c.x, c.y), IsEndPos(c.x, c.y), grid.IsWalkableAt(c.x, c.y));
      faulted := false;
      if e.Some? {
        TableAgreesWithReference(current, e.value);
        current := Fire(current, e.value);
        // ondrawWall and oneraseWall write the pressed cell.
        if e.value == DrawWall || e.value == EraseWall {
          faulted := SetWalkableAt(c.x, c.y, e.value == EraseWall);
        }
      }
    }

    /**
     * mousemove: move the dragged marker, or write the cell under the pointer
     * while drawing or erasing walls; the cells of the markers are never
     * touched. A write outside the grid throws (`faulted`) and changes nothing.
     */
    method MouseMove(pageX: int, pageY: int) returns (faulted: bool)
      requires Valid()
      modifies this, grid.cells, view
      ensures Valid()
      ensures var c := ToGridCoordinate(pageX, pageY);
              var m := MoveEffectOf(old(current), old(IsStartOrEndPos(c.x, c.y)),
                                    old(grid.IsWalkableAt(c.x, c.y)));
              (if m == MoveStart then startX == c.x && startY == c.y
               else startX == old(startX) && startY == old(startY)) &&
              (if m == MoveEnd then endX == c.x && endY == c.y
               else endX == old(endX) && endY == old(endY)) &&
              (faulted <==> m.SetWalkable? && !InGrid(c, GridCols, GridRows)) &&
              EditedAt(c, if m.SetWalkable? && !faulted then Some(m.walkable) else None)
      ensures current == old(current) && operations == old(operations) && path == old(path)
    {
      var c := ToGridCoordinate(pageX, pageY);
      faulted := false;
      if IsStartOrEndPos(c.x, c.y) {
        return;
      }
      match current
      case DraggingStart =>
        if grid.IsWalkableAt(c.x, c.y) {
          SetStartPos(c.x, c.y);
        }
      case DraggingEnd =>
        if grid.IsWalkableAt(c.x, c.y) {
          SetEndPos(c.x, c.y);
        }
      case DrawingWall =>
        faulted := SetWalkableAt(c.x, c.y, false);
      case ErasingWall =>
        faulted := SetWalkableAt(c.x, c.y, true);
      case _ =>
    }

    /** mouseup: fire rest when it is allowed, which ends any pointer edit. */
    method MouseUp()
      modifies this
      ensures current == if Editing(old(current)) then Ready else old(current)
      ensures MarkersKept()
      ensures operations == old(operations) && path == old(path)
    {
      TableAgreesWithReference(current, Rest);
      if Can(current, Rest) {
        current := Fire(current, Rest);
      }
    }

    /** The hooked `Node.set`: the finder's own update, then one record at the end of the log. */
    method RecordSet(x: int, y: int, attr: string, value: Value)
      requires Valid() && InGrid(Coord(x, y), GridCols, GridRows)
      modifies this
      ensures Valid()
      ensures operations == old(operations) + [Op(x, y, attr, value)]
      ensures current == old(current) && path == old(path)
      ensures MarkersKept()
    {
      operations := operations + [Op(x, y, attr, value)];
    }

    /**
     * onsearch: the finder runs on a copy of the grid, and every `Node.set`
     * call it makes, given in `trace`, passes through the hook; its path is
     * kept. The timing and the timer it starts are not modelled.
     */
    method OnSearch(trace: seq<Op>, found: seq<Coord>)
      requires Valid()
      requires forall i :: 0 <= i < |trace| ==> InGrid(Coord(trace[i].x, trace[i].y), GridCols, GridRows)
      modifies this
      ensures Valid()
      ensures operations == old(operations) + trace && path == found
      ensures current == old(current)
      ensures MarkersKept()
    {
      var i := 0;
      while i < |trace|
        invariant 0 <= i <= |trace|
        invariant Valid()
        invariant operations == old(operations) + trace[..i]
        invariant current == old(current)
        invariant MarkersKept()
      {
        RecordSet(trace[i].x, trace[i].y, trace[i].attr, trace[i].value);
        assert trace[..i + 1] == trace[..i] + [trace[i]];
        i := i + 1;
      }
      assert trace[..i] == trace;
      path := found;
    }

    /**
     * clearFootprints: walk the dirty list, reading each entry as an [x, y]
     * pair and repainting that rectangle with the normal fill. The view fills
     * the list with plain numbers, whose components are undefined, so the
     * first entry makes the repainting throw (see Presentation.FlatListFaults).
     */
    method ClearFootprints() returns (faulted: bool)
      requires Shaped()
      modifies view
      ensures Shaped()
      ensures Restored(view.rects, faulted) == Restore(old(view.rects), old(view.dirtyCoords))
      ensures view.dirtyCoords == old(view.dirtyCoords) && view.wallCoords == old(view.wallCoords)
    {
      var dirtyCoords := view.dirtyCoords;
      faulted := false;
      var i := 0;
      while i < |dirtyCoords|
        invariant 0 <= i <= |dirtyCoords|
        invariant Shaped()
        invariant Restore(view.rects, dirtyCoords[i..]) == Restore(old(view.rects), dirtyCoords)
        invariant view.dirtyCoords == dirtyCoords && view.wallCoords == old(view.wallCoords)
      {
        var x := Component(dirtyCoords[i], 0);
        var y := Component(dirtyCoords[i], 1);
        if !(x.Some? && y.Some? && InGrid(Coord(x.value, y.value), GridCols, GridRows)) {
          // colorizeNodeAt reads rects[y][x] through an undefined row or rectangle and throws.
          faulted := true;
          return;
        }
        view.SetAttributeAt(x.value, y.value, "walkable", Flag(true));
        assert dirtyCoords[i..][1..] == dirtyCoords[i + 1..];
        i := i + 1;
      }
    }

    /**
     * Entering Starting from `start` or `restart`: clear the footprints, then
     * fire search, whose callback runs the finder. When clearing the
     * footprints throws, the exception leaves the machine in Starting and no
     * search runs.
     */
    method EnterStarting(trace: seq<Op>, found: seq<Coord>) returns (faulted: bool)
      requires Valid() && current == Starting
      requires forall i :: 0 <= i < |trace| ==> InGrid(Coord(trace[i].x, trace[i].y), GridCols, GridRows)
      modifies this, view
      ensures Valid()
      ensures faulted == (old(view.dirtyCoords) != [])
      ensures faulted ==> current == Starting && operations == old(operations) && path == old(path)
      ensures !faulted ==> current == Searching && operations == old(operations) + trace && path == found
      ensures view.rects == old(view.rects) && view.dirtyCoords == old(view.dirtyCoords)
      ensures view.wallCoords == old(view.wallCoords)
      ensures MarkersKept()
    {
      FlatListFaults(view.rects, view.dirtyCoords);
      faulted := ClearFootprints();
      if faulted {
        return;
      }
      current := Fire(current, Search);
      OnSearch(trace, found);
    }

    /** The start button: fire start; entering Starting then runs the search. */
    method Start(trace: seq<Op>, found: seq<Coord>) returns (fired: bool, faulted: bool)
      requires Valid()
      requires forall i :: 0 <= i < |trace| ==> InGrid(Coord(trace[i].x, trace[i].y), GridCols, GridRows)
      modifies this, view
      ensures Valid()
      ensures fired == (old(current) == Ready || old(current) == Modified)
      ensures faulted == (fired && old(view.dirtyCoords) != [])
      ensures !fired ==> current == old(current) && operations == old(operations) && path == old(path)
      ensures fired && faulted ==> current == Starting && operations == old(operations) && path == old(path)
      ensures fired && !faulted ==> current == Searching && operations == old(operations) + trace && path == found
      ensures view.rects == old(view.rects) && view.dirtyCoords == old(view.dirtyCoords)
      ensures view.wallCoords == old(view.wallCoords)
      ensures MarkersKept()
    {
      TableAgreesWithReference(current, Event.Start);
      fired := Can(current, Event.Start);
      faulted := false;
      if fired {
        current := Fire(current, Event.Start);
        faulted := EnterStarting(trace, found);
      }
    }

    /**
     * The restart button: fire restart, also while a search is still playing
     * back; the new trace is appended behind what is left of the old one.
     */
    method Restart(trace: seq<Op>, found: seq<Coord>) returns (fired: bool, faulted: bool)
      requires Valid()
      requires forall i :: 0 <= i < |trace| ==> InGrid(Coord(trace[i].x, trace[i].y), GridCols, GridRows)
      modifies this, view
      ensures Valid()
      ensures fired == (old(current) == Searching || old(current) == Finished)
      ensures faulted == (fired && old(view.dirtyCoords) != [])
      ensures !fired ==> current == old(current) && operations == old(operations) && path == old(path)
      ensures fired && faulted ==> current == Starting && operations == old(operations) && path == old(path)
      ensures fired && !faulted ==> current == Searching && operations == old(operations) + trace && path == found
      ensures view.rects == old(view.rects) && view.dirtyCoords == old(view.dirtyCoords)
      ensures view.wallCoords == old(view.wallCoords)
      ensures MarkersKept()
    {
      TableAgreesWithReference(current, Event.Restart);
      fired := Can(current, Event.Restart);
      faulted := false;
      if fired {
        current := Fire(current, Event.Restart);
        faulted := EnterStarting(trace, found);
      }
    }

    /**
     * Fire finish; when it is accepted, onfinish reports the path length and
     * the number of operations still in the log.
     */
    method Finish() returns (stats: Option<Stats>)
      modifies this
      ensures current == Fire(old(current), Event.Finish)
      ensures stats == if old(current) == Searching then Some(Stats(|path|, |operations|)) else None
      ensures operations == old(operations) && path == old(path)
      ensures MarkersKept()
    {
      TableAgreesWithReference(current, Event.Finish);
      if Can(current, Event.Finish) {
        current := Fire(current, Event.Finish);
        stats := Some(Stats(|path|, |operations|));
      } else {
        stats := None;
      }
    }

    /**
     * One playback tick (step): shift records off the front of the log until
     * one is supported and show it; when the log runs dry first, fire finish.
     * The tick does not look at the state, so a paused search keeps playing.
     */
    method Step() returns (applied: Option<Op>, stats: Option<Stats>)
      requires Valid()
      modifies this, view
      ensures Valid()
      ensures applied.None? <==> Shift(old(operations)).Exhausted?
      ensures applied.None? ==>
                operations == [] && current == Fire(old(current), Event.Finish) &&
                stats == (if old(current) == Searching then Some(Stats(|path|, 0)) else None) &&
                view.rects == old(view.rects) && view.dirtyCoords == old(view.dirtyCoords)
      ensures applied.Some? ==>
                var op := applied.value;
                Shift(old(operations)) == Found(op, operations) && stats == None &&
                current == old(current) && Showed(op)
      ensures view.wallCoords == old(view.wallCoords) && path == old(path)
      ensures MarkersKept()
    {
      applied := None;
      while true
        invariant Valid()
        invariant Shift(operations) == Shift(old(operations))
        invariant current == old(current) && path == old(path)
        invariant view.rects == old(view.rects) && view.dirtyCoords == old(view.dirtyCoords)
        invariant view.wallCoords == old(view.wallCoords)
        invariant MarkersKept()
        decreases |operations|
      {
        if operations == [] {
          stats := Finish();
          return;
        }
        var op := operations[0];
        operations := operations[1..];
        if op.attr in SupportedOperations {
          view.SetAttributeAt(op.x, op.y, op.attr, op.value);
          applied := Some(op);
          stats := None;
          return;
        }
      }
    }

    /**
     * The timer of a search left undisturbed: ticks until the tick that fires
     * finish. It shows exactly the supported records of the log, in log
     * order, and takes one tick per shown record plus the final one.
     */
    method RunPlayback() returns (shown: seq<Op>, ticks: nat, stats: Stats)
      requires Valid() && current == Searching
      modifies this, view
      ensures Valid()
      ensures shown == Filter(old(operations))
      ensures ticks == Ticks(old(operations)) == |shown| + 1 && ticks <= |old(operations)| + 1
      ensures current == Finished && operations == [] && stats == Stats(|path|, 0)
      ensures forall i :: 0 <= i < |shown| ==> InRects(old(view.rects), shown[i].x, shown[i].y)
      ensures view.rects == PaintAll(old(view.rects), shown)
      ensures view.dirtyCoords == old(view.dirtyCoords) + DirtyEntries(shown)
      ensures view.wallCoords == old(view.wallCoords) && path == old(path)
      ensures MarkersKept()
    {
      ghost var rects0, dirty0, ops0 := view.rects, view.dirtyCoords, operations;
      shown, ticks := [], 0;
      stats := Stats(0, 0);
      var done := false;
      assert Filter([]) == [];
      while !done
        invariant Valid() && view.wallCoords == old(view.wallCoords) && path == old(path)
        invariant MarkersKept()
        invariant !done ==> current == Searching
        invariant done ==> current == Finished && operations == [] && stats == Stats(|path|, 0)
        invariant Replayed(rects0, dirty0, ops0, shown, view.rects, view.dirtyCoords, operations)
        invariant ticks == |shown| + (if done then 1 else 0)
        decreases |operations| + (if done then 0 else 1)
      {
        ghost var rects, dirty, log := view.rects, view.dirtyCoords, operations;
        var applied, st := Step();
        ticks := ticks + 1;
        if applied.Some? {
          ReplayStep(rects0, dirty0, ops0, shown, rects, dirty, log);
          shown := shown + [applied.value];
        } else {
          ReplayEnd(rects0, dirty0, ops0, shown, rects, dirty, log);
          EnteringFinished(Searching, Event.Finish);
          done := true;
          stats := st.value;
        }
      }
      PlaybackIsFilter(ops0);
      TicksToDrain(ops0);
    }
  }
}
