/**
 * The view of the visualisation (the `View` object): the rectangles that
 * draw the grid, the fill each one is animated towards, and the two lists the
 * view keeps of wall cells and of cells touched by playback. Drawing itself
 * (Raphael shapes, animation, zooming, the start and end markers) is not part
 * of this model; a rectangle is its position and its target fill.
 */
module Presentation {
  import opened Options
  import opened Coordinates
  import opened Recorder

  /** The node styles the grid's rectangles are painted with. */
  datatype Fill = Normal | Blocked | OpenedFill | ClosedFill

  /** One rectangle of the grid: its top-left pixel and the fill it is animated towards. */
  datatype Rect = Rect(x: int, y: int, fill: Fill)

  /**
   * An element of the view's coordinate lists. JavaScript arrays hold anything:
   * the wall list holds `[x, y]` pairs, the dirty list plain numbers.
   */
  datatype Entry = Num(n: int) | Pair(x: int, y: int)

  /** `entry[k]` in JavaScript: a component of a pair; a number has no elements, so `undefined`. */
  function Component(entry: Entry, k: nat): (r: Option<int>)
    ensures r.Some? <==> entry.Pair? && k < 2
    ensures r.Some? ==> r.value == if k == 0 then entry.x else entry.y
  {
    match entry
    case Num(_) => None
    case Pair(x, y) => if k == 0 then Some(x) else if k == 1 then Some(y) else None
  }

  /** Whether `rects[y][x]` is a rectangle, so that colouring it does not throw. */
  predicate InRects(rects: seq<seq<Rect>>, x: int, y: int) {
    0 <= y < |rects| && 0 <= x < |rects[y]|
  }

  /** The rectangles laid out as a `rows` by `cols` grid of NodeSize squares. */
  ghost predicate LaidOut(rects: seq<seq<Rect>>, cols: nat, rows: nat) {
    |rects| == rows &&
    forall y :: 0 <= y < rows ==>
      |rects[y]| == cols &&
      forall x :: 0 <= x < cols ==>
        rects[y][x].x == x * NodeSize && rects[y][x].y == y * NodeSize
  }

  /** colorizeNodeAt: the rectangle at (x, y) is animated towards `fill`. */
  function Paint(rects: seq<seq<Rect>>, x: int, y: int, fill: Fill): (r: seq<seq<Rect>>)
    requires InRects(rects, x, y)
    ensures |r| == |rects|
    ensures forall j :: 0 <= j < |r| ==> |r[j]| == |rects[j]|
    ensures r[y][x] == rects[y][x].(fill := fill)
    ensures forall j, i :: InRects(rects, i, j) && (i, j) != (x, y) ==> r[j][i] == rects[j][i]
  {
    rects[y := rects[y][x := rects[y][x].(fill := fill)]]
  }

  /** Painting keeps every rectangle where it was. */
  lemma PaintKeepsLayout(rects: seq<seq<Rect>>, x: int, y: int, fill: Fill, cols: nat, rows: nat)
    requires LaidOut(rects, cols, rows) && InRects(rects, x, y)
    ensures LaidOut(Paint(rects, x, y, fill), cols, rows)
  {
  }

  /**
   * The fill setAttributeAt gives a rectangle: normal or blocked by the
   * truthiness of a 'walkable' value, the opened and closed styles for those
   * attributes, and no colour change for 'parent' or any other attribute.
   */
  function FillFor(attr: string, value: Value): (r: Option<Fill>)
    ensures r.Some? <==> attr in ["walkable", "opened", "closed"]
    ensures r == Some(Blocked) <==> attr == "walkable" && !Truthy(value)
  {
    if attr == "walkable" then Some(if Truthy(value) then Normal else Blocked)
    else if attr == "opened" then Some(OpenedFill)
    else if attr == "closed" then Some(ClosedFill)
    else None
  }

  /** The dirty-list entries `push(x, y)` adds for each applied record: two numbers per record. */
  function DirtyEntries(ops: seq<Op>): (r: seq<Entry>)
    ensures |r| == 2 * |ops|
    ensures forall i :: 0 <= i < |ops| ==> r[2 * i] == Num(ops[i].x) && r[2 * i + 1] == Num(ops[i].y)
  {
    if ops == [] then [] else [Num(ops[0].x), Num(ops[0].y)] + DirtyEntries(ops[1..])
  }

  /** Applying one more record adds its two numbers at the end of the dirty list. */
  lemma {:induction false} DirtyEntriesSnoc(ops: seq<Op>, op: Op)
    ensures DirtyEntries(ops + [op]) == DirtyEntries(ops) + [Num(op.x), Num(op.y)]
    decreases |ops|
  {
    if ops == [] {
      assert ops + [op] == [op];
    } else {
      assert (ops + [op])[1..] == ops[1..] + [op];
      DirtyEntriesSnoc(ops[1..], op);
    }
  }

  /** Every entry of the list is a plain number, as `push(x, y)` leaves them. */
  ghost predicate Flat(entries: seq<Entry>) {
    forall i :: 0 <= i < |entries| ==> entries[i].Num?
  }

  /** The rectangles after applying records one after the other, as playback does. */
  function PaintAll(rects: seq<seq<Rect>>, ops: seq<Op>): (r: seq<seq<Rect>>)
    requires forall i :: 0 <= i < |ops| ==> InRects(rects, ops[i].x, ops[i].y)
    ensures |r| == |rects| && forall j :: 0 <= j < |r| ==> |r[j]| == |rects[j]|
    decreases |ops|
  {
    if ops == [] then rects
    else
      var f := FillFor(ops[0].attr, ops[0].value);
      var next := if f.Some? then Paint(rects, ops[0].x, ops[0].y, f.value) else rects;
      PaintAll(next, ops[1..])
  }

  /** The fill of the last record in `ops` that paints (x, y), if any. */
  function LastFillAt(ops: seq<Op>, x: int, y: int): Option<Fill>
    decreases |ops|
  {
    if ops == [] then None
    else
      var last := ops[|ops| - 1];
      var f := FillFor(last.attr, last.value);
      if (last.x, last.y) == (x, y) && f.Some? then f else LastFillAt(ops[..|ops| - 1], x, y)
  }

  /**
   * After applying a sequence of records, every rectangle shows the fill of
   * the last record that painted it, and the others are as they were.
   */
  lemma {:induction false} PaintAllAt(rects: seq<seq<Rect>>, ops: seq<Op>, x: int, y: int)
    requires forall i :: 0 <= i < |ops| ==> InRects(rects, ops[i].x, ops[i].y)
    requires InRects(rects, x, y)
    ensures PaintAll(rects, ops)[y][x] == rects[y][x].(fill := LastFillAt(ops, x, y).GetOr(rects[y][x].fill))
    decreases |ops|
  {
    if ops != [] {
      var n := |ops| - 1;
      var init := ops[..n];
      PaintAllSnoc(rects, init, ops[n]);
      assert ops == init + [ops[n]];
      PaintAllAt(rects, init, x, y);
    }
  }

  /** Applying one more record paints on top of what the earlier ones left. */
  lemma {:induction false} PaintAllSnoc(rects: seq<seq<Rect>>, ops: seq<Op>, op: Op)
    requires forall i :: 0 <= i < |ops| ==> InRects(rects, ops[i].x, ops[i].y)
    requires InRects(rects, op.x, op.y)
    ensures var before := PaintAll(rects, ops);
            var f := FillFor(op.attr, op.value);
            PaintAll(rects, ops + [op]) ==
              if f.Some? then Paint(before, op.x, op.y, f.value) else before
    decreases |ops|
  {
    if ops == [] {
      assert ops + [op] == [op];
    } else {
      var f0 := FillFor(ops[0].attr, ops[0].value);
      var next := if f0.Some? then Paint(rects, ops[0].x, ops[0].y, f0.value) else rects;
      assert (ops + [op])[1..] == ops[1..] + [op];
      PaintAllSnoc(next, ops[1..], op);
    }
  }

  /** The outcome of clearFootprints: the rectangles it leaves and whether it threw. */
  datatype Restored = Restored(rects: seq<seq<Rect>>, faulted: bool)

  /**
   * What clearFootprints does with the dirty list: for each entry in order it
   * reads `entry[0]` and `entry[1]` and repaints that rectangle with the normal
   * fill; an entry whose components are undefined, or name no rectangle, makes
   * colorizeNodeAt throw, which ends the walk with the rectangles as they are.
   */
  function Restore(rects: seq<seq<Rect>>, dirty: seq<Entry>): (r: Restored)
    ensures |r.rects| == |rects| && forall j :: 0 <= j < |rects| ==> |r.rects[j]| == |rects[j]|
    decreases |dirty|
  {
    if dirty == [] then Restored(rects, false)
    else
      var x := Component(dirty[0], 0);
      var y := Component(dirty[0], 1);
      if x.Some? && y.Some? && InRects(rects, x.value, y.value) then
        Restore(Paint(rects, x.value, y.value, Normal), dirty[1..])
      else
        Restored(rects, true)
  }

  /**
   * The list as the view fills it (plain numbers) cannot be walked: on any
   * non-empty list clearFootprints throws at the first entry and no rectangle
   * is repainted.
   */
  lemma FlatListFaults(rects: seq<seq<Rect>>, dirty: seq<Entry>)
    requires Flat(dirty)
    ensures Restore(rects, dirty) == Restored(rects, dirty != [])
  {
    if dirty != [] {
      assert dirty[0].Num?;
    }
  }

  /** Whether some entry of the list is the pair (x, y). */
  predicate Listed(entries: seq<Entry>, x: int, y: int) {
    Pair(x, y) in entries
  }

  /**
   * A list of [x, y] pairs naming rectangles would be walked to the end,
   * repainting exactly the listed rectangles with the normal fill.
   */
  lemma {:induction false} PairListRepaints(rects: seq<seq<Rect>>, dirty: seq<Entry>, x: int, y: int)
    requires forall i :: 0 <= i < |dirty| ==> dirty[i].Pair? && InRects(rects, dirty[i].x, dirty[i].y)
    requires InRects(rects, x, y)
    ensures !Restore(rects, dirty).faulted
    ensures Restore(rects, dirty).rects[y][x] ==
            if Listed(dirty, x, y) then rects[y][x].(fill := Normal) else rects[y][x]
    decreases |dirty|
  {
    if dirty != [] {
      var e := dirty[0];
      var next := Paint(rects, e.x, e.y, Normal);
      assert forall i :: 0 <= i < |dirty[1..]| ==> dirty[1..][i] == dirty[i + 1];
      PairListRepaints(next, dirty[1..], x, y);
      assert dirty == [e] + dirty[1..];
      assert Listed(dirty, x, y) <==> (e.x, e.y) == (x, y) || Listed(dirty[1..], x, y);
    }
  }

  class View {
    const numCols: nat
    const numRows: nat
    /** rects[y][x] draws the cell (x, y). */
    var rects: seq<seq<Rect>>
    /** Every cell ever painted as a wall, in painting order, duplicates included. */
    var wallCoords: seq<Coord>
    /** The coordinates of the cells playback painted, pushed as two plain numbers each. */
    var dirtyCoords: seq<Entry>

    /** The grid of rectangles has been generated. */
    ghost predicate Valid()
      reads this
    {
      LaidOut(rects, numCols, numRows)
    }

    /** View.init: the grid size and two empty lists; no rectangle exists yet. */
    constructor (numCols: nat, numRows: nat)
      ensures this.numCols == numCols && this.numRows == numRows
      ensures rects == [] && wallCoords == [] && dirtyCoords == []
    {
      this.numCols := numCols;
      this.numRows := numRows;
      rects := [];
      wallCoords := [];
      dirtyCoords := [];
    }

    /**
     * View.generateGrid: one task per row, in ascending row order, each
     * creating that row's rectangles with the normal fill. The tasks and the
     * pauses between them run one after the other, so they are a loop here;
     * the completion callback is the caller continuing after the return.
     */
    method GenerateGrid()
      modifies this
      ensures Valid()
      ensures forall y, x :: 0 <= y < numRows && 0 <= x < numCols ==> rects[y][x].fill == Normal
      ensures wallCoords == old(wallCoords) && dirtyCoords == old(dirtyCoords)
    {
      rects := [];
      var rowId := 0;
      while rowId < numRows
        invariant 0 <= rowId <= numRows
        invariant LaidOut(rects, numCols, rowId)
        invariant forall y, x :: 0 <= y < rowId && 0 <= x < numCols ==> rects[y][x].fill == Normal
        invariant wallCoords == old(wallCoords) && dirtyCoords == old(dirtyCoords)
      {
        var row: seq<Rect> := [];
        var j := 0;
        while j < numCols
          invariant 0 <= j <= numCols && |row| == j
          invariant forall x :: 0 <= x < j ==> row[x] == Rect(x * NodeSize, rowId * NodeSize, Normal)
        {
          var page := ToPageCoordinate(j, rowId);
          row := row + [Rect(page.x, page.y, Normal)];
          j := j + 1;
        }
        rects := rects + [row];
        rowId := rowId + 1;
      }
    }

    /**
     * View.setAttributeAt: repaint the rectangle for 'walkable', 'opened' and
     * 'closed'; remember a cell made unwalkable in the wall list and a cell
     * opened or closed in the dirty list, the latter as two plain numbers;
     * leave everything alone for 'parent' and for unknown attributes (which
     * are only logged). Painting indexes rects[y][x], so it needs a cell of the grid.
     */
    method SetAttributeAt(gridX: int, gridY: int, attr: string, value: Value)
      requires Valid()
      requires FillFor(attr, value).Some? ==> InGrid(Coord(gridX, gridY), numCols, numRows)
      modifies this
      ensures Valid()
      ensures rects == match FillFor(attr, value)
                       case Some(f) => Paint(old(rects), gridX, gridY, f)
                       case None => old(rects)
      ensures wallCoords == if attr == "walkable" && !Truthy(value)
                            then old(wallCoords) + [Coord(gridX, gridY)] else old(wallCoords)
      ensures dirtyCoords == if attr == "opened" || attr == "closed"
                             then old(dirtyCoords) + [Num(gridX), Num(gridY)] else old(dirtyCoords)
    {
      if attr == "walkable" {
        rects := Paint(rects, gridX, gridY, if Truthy(value) then Normal else Blocked);
        if !Truthy(value) {
          wallCoords := wallCoords + [Coord(gridX, gridY)];
        }
      } else if attr == "opened" {
        rects := Paint(rects, gridX, gridY, OpenedFill);
        dirtyCoords := dirtyCoords + [Num(gridX), Num(gridY)];
      } else if attr == "closed" {
        rects := Paint(rects, gridX, gridY, ClosedFill);
        dirtyCoords := dirtyCoords + [Num(gridX), Num(gridY)];
      }
    }
  }
}
