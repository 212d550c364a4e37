/** The frame the editor draws, as an ordered list of instructions instead
    of GL calls: first the ground grid, then every non-active column as a
    stack of filled, depth-checked unit cubes (x outer, z inner, bottom to
    top), then the active column with depth testing off, each layer filled
    while below the top and always outlined in black, one layer higher than
    the column. */
module Scene {
  import opened VoxelGrid

  import GridLines

  datatype Style = Filled | Outline

  /** White for the grid (1,1,1), black for outlines (0,0,0), otherwise a
      palette entry. */
  datatype Paint = White | Black | Swatch(index: int)

  datatype Instr =
    | DrawGrid(vertexCount: int, paint: Paint, depthTest: bool)
    | DrawCube(x: int, y: int, z: int, style: Style, paint: Paint, depthTest: bool)

  function GridInstr(): Instr {
    DrawGrid(GridLines.GRID_VERTEX_COUNT, White, true)
  }

  /** The lowest n cubes of a non-active column at (x, z) in colour c. */
  function Stack(x: int, z: int, c: int, n: nat): seq<Instr> {
    if n == 0 then [] else Stack(x, z, c, n - 1) + [DrawCube(x, n - 1, z, Filled, Swatch(c), true)]
  }

  /** What the cell (x, z) contributes to the depth-checked pass. */
  function CellCubes(cells: seq<seq<Column>>, ax: int, az: int, x: int, z: int): seq<Instr>
    requires ValidCells(cells) && InGrid(x, z)
  {
    if x == ax && z == az then [] else Stack(x, z, cells[x][z].colour, cells[x][z].height)
  }

  /** The cells (x, 0) .. (x, nz - 1), in order (RowPrefixMembers says
      what it holds). */
  function RowPrefix(cells: seq<seq<Column>>, ax: int, az: int, x: int, nz: nat): seq<Instr>
    requires ValidCells(cells) && 0 <= x < DIM && nz <= DIM
  {
    if nz == 0 then [] else RowPrefix(cells, ax, az, x, nz - 1) + CellCubes(cells, ax, az, x, nz - 1)
  }

  /** The rows 0 .. nx - 1, in order (RowsMembers says what it holds). */
  function Rows(cells: seq<seq<Column>>, ax: int, az: int, nx: nat): seq<Instr>
    requires ValidCells(cells) && nx <= DIM
  {
    if nx == 0 then [] else Rows(cells, ax, az, nx - 1) + RowPrefix(cells, ax, az, nx - 1, DIM)
  }

  /** Layer y of the active column: the filled cube if y is below the top,
      then the black outline; nothing of it is depth-checked. */
  function Layer(ax: int, az: int, c: Column, y: int): (r: seq<Instr>)
    ensures |r| == (if y < c.height then 2 else 1)
    ensures r[|r| - 1] == DrawCube(ax, y, az, Outline, Black, false)
    ensures y < c.height ==> r[0] == DrawCube(ax, y, az, Filled, Swatch(c.colour), false)
  {
    (if y < c.height then [DrawCube(ax, y, az, Filled, Swatch(c.colour), false)] else [])
      + [DrawCube(ax, y, az, Outline, Black, false)]
  }

  /** Layers 0 .. n - 1 of the active column. */
  function Highlight(ax: int, az: int, c: Column, n: nat): seq<Instr> {
    if n == 0 then [] else Highlight(ax, az, c, n - 1) + Layer(ax, az, c, n - 1)
  }

  /** The instructions of one frame of A1::draw: it opens with the grid and
      closes with the outline on top of the active column. */
  function Compose(cells: seq<seq<Column>>, ax: int, az: int): (r: seq<Instr>)
    requires ValidCells(cells) && InGrid(ax, az)
    ensures 2 <= |r| && r[0] == GridInstr()
    ensures r[|r| - 1] == DrawCube(ax, cells[ax][az].height, az, Outline, Black, false)
  {
    HighlightLayout(ax, az, cells[ax][az], cells[ax][az].height + 1);
    [GridInstr()] + Rows(cells, ax, az, DIM) + Highlight(ax, az, cells[ax][az], cells[ax][az].height + 1)
  }

  // ---------------------------------------------------------------------
  // Where each instruction sits.

  /** Entry y of a stack is the filled, depth-checked cube at level y. */
  lemma {:induction false} StackLayout(x: int, z: int, c: int, n: nat)
    ensures |Stack(x, z, c, n)| == n
    ensures forall y :: 0 <= y < n ==> Stack(x, z, c, n)[y] == DrawCube(x, y, z, Filled, Swatch(c), true)
  {
    if n > 0 {
      StackLayout(x, z, c, n - 1);
    }
  }

  /** Up to the layer above the top, the active column has one fill and
      one outline per level below the top, the fill first at index 2y, and
      a single outline for the layer above the top, at the end. */
  lemma {:induction false} HighlightLayout(ax: int, az: int, c: Column, n: nat)
    requires 0 <= c.height && n <= c.height + 1
    ensures |Highlight(ax, az, c, n)| == 2 * n - (if n == c.height + 1 then 1 else 0)
    ensures forall y :: 0 <= y < n && y < c.height ==>
      && Highlight(ax, az, c, n)[2 * y] == DrawCube(ax, y, az, Filled, Swatch(c.colour), false)
      && Highlight(ax, az, c, n)[2 * y + 1] == DrawCube(ax, y, az, Outline, Black, false)
    ensures n == c.height + 1 ==>
      Highlight(ax, az, c, n)[2 * c.height] == DrawCube(ax, c.height, az, Outline, Black, false)
  {
    if n > 0 {
      HighlightLayout(ax, az, c, n - 1);
    }
  }

  // ---------------------------------------------------------------------
  // Which instructions a frame holds.

  /** `i` is a cube of a non-active column: filled, depth-checked, in the
      column's colour, at a level below its height. */
  ghost predicate ColumnCube(cells: seq<seq<Column>>, ax: int, az: int, i: Instr)
    requires ValidCells(cells)
  {
    && i.DrawCube? && InGrid(i.x, i.z) && (i.x != ax || i.z != az)
    && 0 <= i.y < cells[i.x][i.z].height
    && i.style == Filled && i.paint == Swatch(cells[i.x][i.z].colour) && i.depthTest
  }

  /** `i` is drawn for the active column at (ax, az) holding c: not
      depth-checked, at a level 0 .. c.height, either the black outline or,
      below the top, the filled cube in the column's colour. */
  ghost predicate HighlightCube(ax: int, az: int, c: Column, i: Instr) {
    && i.DrawCube? && i.x == ax && i.z == az && !i.depthTest && 0 <= i.y <= c.height
    && ((i.style == Outline && i.paint == Black)
        || (i.style == Filled && i.paint == Swatch(c.colour) && i.y < c.height))
  }

  lemma ColumnCubeInGrid(cells: seq<seq<Column>>, ax: int, az: int, i: Instr)
    requires ValidCells(cells) && ColumnCube(cells, ax, az, i)
    ensures i.DrawCube? && InGrid(i.x, i.z)
  {
  }

  lemma {:induction false} StackMembers(x: int, z: int, c: int, n: nat, i: Instr)
    ensures i in Stack(x, z, c, n) <==>
      i.DrawCube? && i.x == x && i.z == z && 0 <= i.y < n && i.style == Filled && i.paint == Swatch(c) && i.depthTest
  {
    if n > 0 {
      StackMembers(x, z, c, n - 1, i);
    }
  }

  lemma {:induction false} RowPrefixMembers(cells: seq<seq<Column>>, ax: int, az: int, x: int, nz: nat, i: Instr)
    requires ValidCells(cells) && 0 <= x < DIM && nz <= DIM
    ensures i in RowPrefix(cells, ax, az, x, nz) <==> ColumnCube(cells, ax, az, i) && i.x == x && i.z < nz
  {
    if nz > 0 {
      RowPrefixMembers(cells, ax, az, x, nz - 1, i);
      var c := cells[x][nz - 1];
      StackMembers(x, nz - 1, c.colour, c.height, i);
    }
  }

  lemma {:induction false} RowsMembers(cells: seq<seq<Column>>, ax: int, az: int, nx: nat, i: Instr)
    requires ValidCells(cells) && nx <= DIM
    ensures i in Rows(cells, ax, az, nx) <==> ColumnCube(cells, ax, az, i) && i.x < nx
  {
    if nx > 0 {
      var done, row := Rows(cells, ax, az, nx - 1), RowPrefix(cells, ax, az, nx - 1, DIM);
      var cube := ColumnCube(cells, ax, az, i);
      assert i in done <==> cube && i.x < nx - 1 by {
        RowsMembers(cells, ax, az, nx - 1, i);
      }
      assert i in row <==> cube && i.x == nx - 1 by {
        RowPrefixMembers(cells, ax, az, nx - 1, DIM, i);
        if cube {
          ColumnCubeInGrid(cells, ax, az, i);
        }
      }
      assert i in Rows(cells, ax, az, nx) <==> i in done || i in row;
    }
  }

  lemma {:induction false} HighlightMembers(ax: int, az: int, c: Column, n: nat, i: Instr)
    requires n <= c.height + 1
    ensures i in Highlight(ax, az, c, n) <==> HighlightCube(ax, az, c, i) && i.y < n
  {
    if n > 0 {
      HighlightMembers(ax, az, c, n - 1, i);
    }
  }

  /** A frame holds exactly the grid, the cubes of the non-active columns
      and the cubes of the active column. */
  lemma ComposeMembers(cells: seq<seq<Column>>, ax: int, az: int, i: Instr)
    requires ValidCells(cells) && InGrid(ax, az)
    ensures i in Compose(cells, ax, az) <==>
      i == GridInstr() || ColumnCube(cells, ax, az, i) || HighlightCube(ax, az, cells[ax][az], i)
  {
    RowsMembers(cells, ax, az, DIM, i);
    HighlightMembers(ax, az, cells[ax][az], cells[ax][az].height + 1, i);
  }

  /** A non-active column (x, z) is drawn as filled cubes at exactly the
      levels 0 .. height - 1, and nothing else is drawn at (x, z). */
  lemma ColumnDrawnIff(cells: seq<seq<Column>>, ax: int, az: int, x: int, y: int, z: int)
    requires ValidCells(cells) && InGrid(ax, az) && InGrid(x, z) && (x != ax || z != az)
    ensures DrawCube(x, y, z, Filled, Swatch(cells[x][z].colour), true) in Compose(cells, ax, az)
      <==> 0 <= y < cells[x][z].height
    ensures forall st, p, dt :: DrawCube(x, y, z, st, p, dt) in Compose(cells, ax, az) ==>
      st == Filled && p == Swatch(cells[x][z].colour) && dt && 0 <= y < cells[x][z].height
  {
    ComposeMembers(cells, ax, az, DrawCube(x, y, z, Filled, Swatch(cells[x][z].colour), true));
    forall st, p, dt | DrawCube(x, y, z, st, p, dt) in Compose(cells, ax, az)
      ensures st == Filled && p == Swatch(cells[x][z].colour) && dt && 0 <= y < cells[x][z].height
    {
      ComposeMembers(cells, ax, az, DrawCube(x, y, z, st, p, dt));
    }
  }

  /** The active column is drawn without depth testing: a black outline at
      every level 0 .. height, a filled cube at every level 0 .. height - 1,
      and no depth-checked cube. */
  lemma ActiveColumnDrawnIff(cells: seq<seq<Column>>, ax: int, az: int, y: int)
    requires ValidCells(cells) && InGrid(ax, az)
    ensures DrawCube(ax, y, az, Outline, Black, false) in Compose(cells, ax, az)
      <==> 0 <= y <= cells[ax][az].height
    ensures DrawCube(ax, y, az, Filled, Swatch(cells[ax][az].colour), false) in Compose(cells, ax, az)
      <==> 0 <= y < cells[ax][az].height
    ensures forall st, p :: DrawCube(ax, y, az, st, p, true) !in Compose(cells, ax, az)
  {
    ComposeMembers(cells, ax, az, DrawCube(ax, y, az, Outline, Black, false));
    ComposeMembers(cells, ax, az, DrawCube(ax, y, az, Filled, Swatch(cells[ax][az].colour), false));
    forall st, p ensures DrawCube(ax, y, az, st, p, true) !in Compose(cells, ax, az) {
      ComposeMembers(cells, ax, az, DrawCube(ax, y, az, st, p, true));
    }
  }

  /** After the grid and the depth-checked pass, a frame holds exactly
      2h + 1 instructions for the active column of height h: level by level
      from the bottom, the fill and then the outline, and for level h the
      outline alone. So each of the h fills and h + 1 outlines is drawn
      once. */
  lemma ActivePassLayout(cells: seq<seq<Column>>, ax: int, az: int)
    requires ValidCells(cells) && InGrid(ax, az)
    ensures var r, k, c := Compose(cells, ax, az), 1 + |Rows(cells, ax, az, DIM)|, cells[ax][az];
      && |r| == k + 2 * c.height + 1
      && (forall y :: 0 <= y < c.height ==>
            && r[k + 2 * y] == DrawCube(ax, y, az, Filled, Swatch(c.colour), false)
            && r[k + 2 * y + 1] == DrawCube(ax, y, az, Outline, Black, false))
      && r[k + 2 * c.height] == DrawCube(ax, c.height, az, Outline, Black, false)
  {
    var c := cells[ax][az];
    var head, hl := [GridInstr()] + Rows(cells, ax, az, DIM), Highlight(ax, az, c, c.height + 1);
    var r, k := Compose(cells, ax, az), |head|;
    assert r == head + hl;
    HighlightLayout(ax, az, c, c.height + 1);
    forall y | 0 <= y < c.height
      ensures r[k + 2 * y] == hl[2 * y] && r[k + 2 * y + 1] == hl[2 * y + 1]
    {
    }
    assert r[k + 2 * c.height] == hl[2 * c.height];
  }

  /** With every column empty, a frame is the grid and one outline cube at
      level 0 of the active cell. */
  lemma ComposeEmptyGrid(cells: seq<seq<Column>>, ax: int, az: int)
    requires ValidCells(cells) && InGrid(ax, az)
    requires forall x, z :: InGrid(x, z) ==> cells[x][z].height == 0
    ensures Compose(cells, ax, az) == [GridInstr(), DrawCube(ax, 0, az, Outline, Black, false)]
  {
    var rows := Rows(cells, ax, az, DIM);
    if rows != [] {
      RowsMembers(cells, ax, az, DIM, rows[0]);
      assert false;
    }
    var c := cells[ax][az];
    assert Highlight(ax, az, c, 1) == Highlight(ax, az, c, 0) + Layer(ax, az, c, 0);
  }

  // ---------------------------------------------------------------------
  // In which order a frame holds them.

  /** p comes before q in the x-outer, z-inner, y-innermost scan. */
  ghost predicate ScanBefore(p: Instr, q: Instr) {
    && p.DrawCube? && q.DrawCube?
    && (p.x < q.x || (p.x == q.x && (p.z < q.z || (p.z == q.z && p.y < q.y))))
  }

  ghost predicate ScanOrdered(s: seq<Instr>) {
    forall i, j :: 0 <= i < j < |s| ==> ScanBefore(s[i], s[j])
  }

  lemma ConcatOrdered(a: seq<Instr>, b: seq<Instr>)
    requires ScanOrdered(a) && ScanOrdered(b)
    requires forall p, q :: p in a && q in b ==> ScanBefore(p, q)
    ensures ScanOrdered(a + b)
  {
    forall i, j | 0 <= i < j < |a + b| ensures ScanBefore((a + b)[i], (a + b)[j]) {
      if j < |a| {
        assert (a + b)[i] == a[i] && (a + b)[j] == a[j];
      } else if |a| <= i {
        assert (a + b)[i] == b[i - |a|] && (a + b)[j] == b[j - |a|];
      } else {
        assert (a + b)[i] == a[i] && a[i] in a;
        assert (a + b)[j] == b[j - |a|] && b[j - |a|] in b;
      }
    }
  }

  /** Where the cubes of a stack, a row prefix and a block of rows lie. */
  lemma StackWithin(x: int, z: int, c: int, n: nat, p: Instr)
    requires p in Stack(x, z, c, n)
    ensures p.DrawCube? && p.x == x && p.z == z && p.y < n
  {
    StackMembers(x, z, c, n, p);
  }

  lemma RowPrefixWithin(cells: seq<seq<Column>>, ax: int, az: int, x: int, nz: nat, p: Instr)
    requires ValidCells(cells) && 0 <= x < DIM && nz <= DIM
    requires p in RowPrefix(cells, ax, az, x, nz)
    ensures p.DrawCube? && p.x == x && p.z < nz
  {
    RowPrefixMembers(cells, ax, az, x, nz, p);
  }

  lemma RowsWithin(cells: seq<seq<Column>>, ax: int, az: int, nx: nat, p: Instr)
    requires ValidCells(cells) && nx <= DIM
    requires p in Rows(cells, ax, az, nx)
    ensures p.DrawCube? && p.x < nx
  {
    RowsMembers(cells, ax, az, nx, p);
  }

  lemma {:induction false} StackOrdered(x: int, z: int, c: int, n: nat)
    ensures ScanOrdered(Stack(x, z, c, n))
  {
    if n > 0 {
      var below, top := Stack(x, z, c, n - 1), [DrawCube(x, n - 1, z, Filled, Swatch(c), true)];
      StackOrdered(x, z, c, n - 1);
      forall p, q | p in below && q in top ensures ScanBefore(p, q) {
        StackWithin(x, z, c, n - 1, p);
      }
      ConcatOrdered(below, top);
    }
  }

  lemma {:induction false} RowPrefixOrdered(cells: seq<seq<Column>>, ax: int, az: int, x: int, nz: nat)
    requires ValidCells(cells) && 0 <= x < DIM && nz <= DIM
    ensures ScanOrdered(RowPrefix(cells, ax, az, x, nz))
  {
    if nz > 0 {
      var done, cell := RowPrefix(cells, ax, az, x, nz - 1), CellCubes(cells, ax, az, x, nz - 1);
      var c := cells[x][nz - 1];
      RowPrefixOrdered(cells, ax, az, x, nz - 1);
      StackOrdered(x, nz - 1, c.colour, c.height);
      PrefixBeforeCell(cells, ax, az, x, nz - 1);
      ConcatOrdered(done, cell);
    }
  }

  /** Every cube of cells (x, 0) .. (x, z - 1) comes before every cube of (x, z). */
  lemma PrefixBeforeCell(cells: seq<seq<Column>>, ax: int, az: int, x: int, z: nat)
    requires ValidCells(cells) && 0 <= x < DIM && z < DIM
    ensures forall p, q :: p in RowPrefix(cells, ax, az, x, z) && q in CellCubes(cells, ax, az, x, z) ==> ScanBefore(p, q)
  {
    var c := cells[x][z];
    forall p, q | p in RowPrefix(cells, ax, az, x, z) && q in CellCubes(cells, ax, az, x, z) ensures ScanBefore(p, q) {
      RowPrefixWithin(cells, ax, az, x, z, p);
      StackWithin(x, z, c.colour, c.height, q);
    }
  }

  lemma {:induction false} RowsOrdered(cells: seq<seq<Column>>, ax: int, az: int, nx: nat)
    requires ValidCells(cells) && nx <= DIM
    ensures ScanOrdered(Rows(cells, ax, az, nx))
  {
    if nx > 0 {
      RowsOrdered(cells, ax, az, nx - 1);
      RowPrefixOrdered(cells, ax, az, nx - 1, DIM);
      RowsBeforeRow(cells, ax, az, nx - 1);
      ConcatOrdered(Rows(cells, ax, az, nx - 1), RowPrefix(cells, ax, az, nx - 1, DIM));
    }
  }

  /** Every cube of rows 0 .. x - 1 comes before every cube of row x. */
  lemma RowsBeforeRow(cells: seq<seq<Column>>, ax: int, az: int, x: nat)
    requires ValidCells(cells) && x < DIM
    ensures forall p, q :: p in Rows(cells, ax, az, x) && q in RowPrefix(cells, ax, az, x, DIM) ==> ScanBefore(p, q)
  {
    forall p, q | p in Rows(cells, ax, az, x) && q in RowPrefix(cells, ax, az, x, DIM) ensures ScanBefore(p, q) {
      RowsWithin(cells, ax, az, x, p);
      RowPrefixWithin(cells, ax, az, x, DIM, q);
    }
  }

  /** A frame starts with the grid; its depth-checked cubes come in scan
      order, each position at most once, and all before the cubes of the
      active column. */
  lemma ComposeOrder(cells: seq<seq<Column>>, ax: int, az: int)
    requires ValidCells(cells) && InGrid(ax, az)
    ensures var r := Compose(cells, ax, az);
      && r[0] == GridInstr()
      && (forall i :: 0 < i < |r| ==> r[i].DrawCube?)
      && (forall i, j :: 0 < i < j < |r| && r[i].depthTest && r[j].depthTest ==> ScanBefore(r[i], r[j]))
      && (forall i, j :: 0 < i < j < |r| && r[j].depthTest ==> r[i].depthTest)
  {
    var r := Compose(cells, ax, az);
    var rows := Rows(cells, ax, az, DIM);
    var c := cells[ax][az];
    var hl := Highlight(ax, az, c, c.height + 1);
    assert r == [GridInstr()] + rows + hl;
    RowsOrdered(cells, ax, az, DIM);
    forall i | 0 < i < |r| ensures r[i].DrawCube? && (r[i].depthTest <==> i <= |rows|) {
      if i <= |rows| {
        assert r[i] == rows[i - 1] && rows[i - 1] in rows;
        RowsMembers(cells, ax, az, DIM, rows[i - 1]);
      } else {
        assert r[i] == hl[i - 1 - |rows|] && hl[i - 1 - |rows|] in hl;
        HighlightMembers(ax, az, c, c.height + 1, hl[i - 1 - |rows|]);
      }
    }
    forall i, j | 0 < i < j < |r| && r[i].depthTest && r[j].depthTest ensures ScanBefore(r[i], r[j]) {
      assert r[i] == rows[i - 1] && r[j] == rows[j - 1];
    }
  }
}
