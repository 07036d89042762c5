/**
 * The coordinate mapper of the visualisation (View.toGridCoordinate and
 * View.toPageCoordinate): pixel positions on the page and cell positions on
 * the grid, with a fixed cell size of `NodeSize` pixels.
 */
module Coordinates {

  /** Width and height of one grid cell, in pixels. */
  const NodeSize: int := 30

  /** A pair `[x, y]`, either of pixels or of grid cells. */
  datatype Coord = Coord(x: int, y: int)

  /** Whether `c` names a cell of a grid with `cols` columns and `rows` rows. */
  predicate InGrid(c: Coord, cols: int, rows: int) {
    0 <= c.x < cols && 0 <= c.y < rows
  }

  /**
   * The cell under the pixel (pageX, pageY): each component divided by the cell
   * size and rounded down. Dafny's `/` by a positive divisor already rounds
   * towards negative infinity, as Math.floor does.
   */
  function ToGridCoordinate(pageX: int, pageY: int): (c: Coord)
    ensures c.x * NodeSize <= pageX < c.x * NodeSize + NodeSize
    ensures c.y * NodeSize <= pageY < c.y * NodeSize + NodeSize
  {
    Coord(pageX / NodeSize, pageY / NodeSize)
  }

  /**
   * The top-left pixel of the cell (gridX, gridY): the one pixel of that cell
   * whose components are multiples of the cell size.
   */
  function ToPageCoordinate(gridX: int, gridY: int): (p: Coord)
    ensures p.x % NodeSize == 0 && p.y % NodeSize == 0
    ensures ToGridCoordinate(p.x, p.y) == Coord(gridX, gridY)
  {
    Coord(gridX * NodeSize, gridY * NodeSize)
  }

  /** Mapping a cell to its pixel and back gives the same cell. */
  lemma RoundTrip(gridX: int, gridY: int)
    ensures var p := ToPageCoordinate(gridX, gridY);
            ToGridCoordinate(p.x, p.y) == Coord(gridX, gridY)
  {
    var p := ToPageCoordinate(gridX, gridY);
    CellOfPixel(gridX, gridY, p.x, p.y);
  }

  /**
   * A pixel maps to the cell (gridX, gridY) exactly when it lies in the
   * NodeSize-by-NodeSize square whose top-left corner is that cell's page
   * coordinate.
   */
  lemma CellOfPixel(gridX: int, gridY: int, pageX: int, pageY: int)
    ensures ToGridCoordinate(pageX, pageY) == Coord(gridX, gridY) <==>
            var p := ToPageCoordinate(gridX, gridY);
            p.x <= pageX < p.x + NodeSize && p.y <= pageY < p.y + NodeSize
  {
  }
}
