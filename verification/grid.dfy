/**
 * The walkability grid the controller edits and the finders search (PF.Grid).
 * Its code is not part of this model; it is treated as a matrix of walkable
 * flags, indexed like the library's `nodes[y][x]`.
 */
module PFGrid {
  import opened Coordinates

  class Grid {
    const width: nat
    const height: nat
    /** cells[y, x] is whether the cell (x, y) is walkable. */
    const cells: array2<bool>

    predicate Valid() {
      cells.Length0 == height && cells.Length1 == width
    }

    /** Whether (x, y) is a cell of this grid. */
    predicate IsInside(x: int, y: int) {
      InGrid(Coord(x, y), width, height)
    }

    /** `new PF.Grid(width, height)`: every cell starts walkable. */
    constructor (width: nat, height: nat)
      ensures Valid() && this.width == width && this.height == height
      ensures fresh(cells)
      ensures forall y, x :: 0 <= y < height && 0 <= x < width ==> cells[y, x]
    {
      this.width := width;
      this.height := height;
      cells := new bool[height, width]((y, x) => true);
    }

    /**
     * Whether (x, y) is walkable; a position outside the grid reads as not
     * walkable rather than failing.
     */
    function IsWalkableAt(x: int, y: int): (r: bool)
      requires Valid()
      reads cells
      ensures r ==> IsInside(x, y)
      ensures IsInside(x, y) ==> (r <==> cells[y, x])
    {
      IsInside(x, y) && cells[y, x]
    }

    /** Set the walkable flag of the cell (x, y), which must be inside the grid. */
    method SetWalkableAt(x: int, y: int, walkable: bool)
      requires Valid() && IsInside(x, y)
      modifies cells
      ensures IsWalkableAt(x, y) == walkable
      ensures forall j, i :: 0 <= j < height && 0 <= i < width && (i, j) != (x, y) ==>
                cells[j, i] == old(cells[j, i])
    {
      cells[y, x] := walkable;
    }
  }
}
