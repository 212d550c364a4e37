/** The voxel grid: a DIM x DIM table of columns, each with a height and a
    colour index.  The editor stores its grid in a `Grid` object that holds
    two DIM x DIM integer arrays; `Cells()` is the abstract view of both. */
module VoxelGrid {

  /** Side length of the grid, tallest column and palette size (A1.cpp:14-16). */
  const DIM: int := 16
  const MAX_HEIGHT: int := 20
  const NUM_COLOUR: int := 8

  /** The per-cell state: column height and palette index. */
  datatype Column = Column(height: int, colour: int)

  predicate InGrid(x: int, z: int) {
    0 <= x < DIM && 0 <= z < DIM
  }

  predicate ValidColumn(c: Column) {
    0 <= c.height <= MAX_HEIGHT && 0 <= c.colour < NUM_COLOUR
  }

  /** A DIM x DIM table indexed `cells[x][z]`. */
  ghost predicate WellShaped(cells: seq<seq<Column>>) {
    |cells| == DIM && forall x :: 0 <= x < DIM ==> |cells[x]| == DIM
  }

  /** Every cell holds a height in [0, MAX_HEIGHT] and a colour in [0, NUM_COLOUR). */
  ghost predicate ValidCells(cells: seq<seq<Column>>) {
    WellShaped(cells) && forall x, z :: InGrid(x, z) ==> ValidColumn(cells[x][z])
  }

  /** `a` and `b` agree on every cell except possibly (x, z). */
  ghost predicate AgreeExcept(a: seq<seq<Column>>, b: seq<seq<Column>>, x: int, z: int)
    requires WellShaped(a) && WellShaped(b)
  {
    forall i, j :: InGrid(i, j) && (i != x || j != z) ==> a[i][j] == b[i][j]
  }

  /** The table with cell (x, z) replaced by `c` and every other cell kept. */
  function SetCell(cells: seq<seq<Column>>, x: int, z: int, c: Column): (r: seq<seq<Column>>)
    requires WellShaped(cells) && InGrid(x, z)
    ensures WellShaped(r)
    ensures r[x][z] == c
    ensures AgreeExcept(r, cells, x, z)
  {
    cells[x := cells[x][z := c]]
  }

  /** Writing the same cell twice keeps only the second write. */
  lemma SetCellTwice(cells: seq<seq<Column>>, x: int, z: int, c: Column, d: Column)
    requires WellShaped(cells) && InGrid(x, z)
    ensures SetCell(SetCell(cells, x, z, c), x, z, d) == SetCell(cells, x, z, d)
  {
    var lhs, rhs := SetCell(SetCell(cells, x, z, c), x, z, d), SetCell(cells, x, z, d);
    forall i | 0 <= i < DIM ensures lhs[i] == rhs[i] {
      assert |lhs[i]| == |rhs[i]| == DIM;
      forall j | 0 <= j < DIM ensures lhs[i][j] == rhs[i][j] {
        assert InGrid(i, j);
      }
    }
  }

  /** The table in which every column is empty and has colour 0. */
  function EmptyCells(): (r: seq<seq<Column>>)
    ensures ValidCells(r)
    ensures forall x, z :: InGrid(x, z) ==> r[x][z] == Column(0, 0)
  {
    seq(DIM, x => seq(DIM, z => Column(0, 0)))
  }

  /** Two well-shaped tables that agree on every cell are equal. */
  lemma CellsExt(a: seq<seq<Column>>, b: seq<seq<Column>>)
    requires WellShaped(a) && WellShaped(b)
    requires forall x, z :: InGrid(x, z) ==> a[x][z] == b[x][z]
    ensures a == b
  {
    forall x | 0 <= x < DIM ensures a[x] == b[x] {
      assert |a[x]| == |b[x]| == DIM;
      forall z | 0 <= z < DIM ensures a[x][z] == b[x][z] {
        assert InGrid(x, z);
      }
    }
  }

  /** The grid store: one array of heights and one of colour indices.  Its
      setters store exactly the value they are given.  Every value the
      editor passes is already in range: Backspace and Space clamp the
      height, the Shift-carry copies a stored height and colour, reset
      writes 0, and the other colours come from the selected colour. */
  class Grid {
    const heights: array2<int>
    const colours: array2<int>

    ghost predicate Valid()
      reads this
    {
      && heights.Length0 == DIM && heights.Length1 == DIM
      && colours.Length0 == DIM && colours.Length1 == DIM
      && heights != colours
    }

    /** The abstract contents: `Cells()[x][z]` is the column at (x, z). */
    ghost function Cells(): (cells: seq<seq<Column>>)
      requires Valid()
      reads this, heights, colours
      ensures WellShaped(cells)
      ensures forall x, z :: InGrid(x, z) ==> cells[x][z] == Column(heights[x, z], colours[x, z])
    {
      seq(DIM, x requires 0 <= x < DIM reads heights, colours =>
        seq(DIM, z requires 0 <= z < DIM reads heights, colours =>
          Column(heights[x, z], colours[x, z])))
    }

    constructor ()
      ensures Valid() && fresh(heights) && fresh(colours)
      ensures Cells() == EmptyCells()
    {
      heights := new int[DIM, DIM]((x, z) => 0);
      colours := new int[DIM, DIM]((x, z) => 0);
      new;
      CellsExt(Cells(), EmptyCells());
    }

    /** The height of (x, z) as the abstract view holds it. */
    function GetHeight(x: int, z: int): (h: int)
      requires Valid() && InGrid(x, z)
      reads this, heights, colours
      ensures h == Cells()[x][z].height
    {
      heights[x, z]
    }

    /** The colour index of (x, z) as the abstract view holds it. */
    function GetColour(x: int, z: int): (c: int)
      requires Valid() && InGrid(x, z)
      reads this, heights, colours
      ensures c == Cells()[x][z].colour
    {
      colours[x, z]
    }

    method SetHeight(x: int, z: int, h: int)
      requires Valid() && InGrid(x, z)
      modifies heights
      ensures Cells() == SetCell(old(Cells()), x, z, Column(h, old(Cells())[x][z].colour))
    {
      heights[x, z] := h;
      CellsExt(Cells(), SetCell(old(Cells()), x, z, Column(h, old(Cells())[x][z].colour)));
    }

    method SetColour(x: int, z: int, c: int)
      requires Valid() && InGrid(x, z)
      modifies colours
      ensures Cells() == SetCell(old(Cells()), x, z, Column(old(Cells())[x][z].height, c))
    {
      colours[x, z] := c;
      CellsExt(Cells(), SetCell(old(Cells()), x, z, Column(old(Cells())[x][z].height, c)));
    }
  }
}
