/** The editor window (class A1): the active cell, the selected colour, the
    camera scalars, the drag flag and the grid, with the event handlers that
    change them and the per-frame draw composition.  Every handler is proved
    to move the abstract `State()` exactly as the matching function of
    module Editing prescribes. */
module Editor {
  import opened VoxelGrid
  import opened Editing
  import opened Scene

  class A1 {
    const grid: Grid
    var activeX: int
    var activeZ: int
    var currentCol: int
    var rotAngle: real
    var scale: real
    var rotating: bool
    var quitRequested: bool

    ghost function State(): Session
      requires grid.Valid()
      reads this, grid, grid.heights, grid.colours
    {
      Session(grid.Cells(), activeX, activeZ, currentCol, rotAngle, scale, rotating, quitRequested)
    }

    /** The cursor is on the grid, every column is in range and the selected
        colour is a palette index. */
    ghost predicate Valid()
      reads this, grid, grid.heights, grid.colours
    {
      grid.Valid() && ValidSession(State())
    }

    /** A1::A1: colour 0 selected, not dragging, then reset. */
    constructor ()
      ensures Valid() && fresh(grid) && fresh(grid.heights) && fresh(grid.colours)
      ensures State() == Session(EmptyCells(), 0, 0, 0, 0.0, 1.0, false, false)
    {
      currentCol := 0;
      grid := new Grid();
      rotating := false;
      quitRequested := false;
      new;
      Reset();
      CellsExt(grid.Cells(), EmptyCells());
    }

    /** A1::reset: cursor, selection and camera scalars restored, and every
        cell cleared by nested loops. */
    method Reset()
      requires grid.Valid()
      modifies this, grid.heights, grid.colours
      ensures Valid()
      ensures State() == ResetSession(old(State()))
    {
      activeX := 0;
      activeZ := 0;
      rotAngle := 0.0;
      scale := 1.0;
      currentCol := 0;
      for x := 0 to DIM
        modifies grid.heights, grid.colours
        invariant forall i, j :: 0 <= i < x && 0 <= j < DIM ==> grid.Cells()[i][j] == Column(0, 0)
      {
        for z := 0 to DIM
          modifies grid.heights, grid.colours
          invariant forall i, j :: 0 <= i < x && 0 <= j < DIM ==> grid.Cells()[i][j] == Column(0, 0)
          invariant forall j :: 0 <= j < z ==> grid.Cells()[x][j] == Column(0, 0)
        {
          grid.SetHeight(x, z, 0);
          grid.SetColour(x, z, 0);
        }
      }
      CellsExt(grid.Cells(), EmptyCells());
    }

    /** The Shift-carry of an arrow key: height, then colour, of the active
        cell written onto (nx, nz). */
    method CarryTo(nx: int, nz: int)
      requires Valid() && InGrid(nx, nz)
      modifies grid.heights, grid.colours
      ensures Valid()
      ensures grid.Cells() == CopyCell(old(grid.Cells()), activeX, activeZ, nx, nz)
    {
      var h := grid.GetHeight(activeX, activeZ);
      var c := grid.GetColour(activeX, activeZ);
      ghost var before: seq<seq<Column>> := grid.Cells();
      grid.SetHeight(nx, nz, h);
      grid.SetColour(nx, nz, c);
      SetCellTwice(before, nx, nz, Column(h, before[nx][nz].colour), Column(h, c));
    }

    /** Backspace on the active column: one unit lower, clamped at 0. */
    method ShrinkActive()
      requires Valid()
      modifies grid.heights
      ensures Valid()
      ensures State() == Shrink(old(State()))
    {
      var h := grid.GetHeight(activeX, activeZ);
      h := Clamp(h - 1, 0, MAX_HEIGHT);
      grid.SetHeight(activeX, activeZ, h);
    }

    /** Space on the active column: one unit higher, clamped at MAX_HEIGHT,
        and painted with the selected colour. */
    method GrowActive()
      requires Valid()
      modifies grid.heights, grid.colours
      ensures Valid()
      ensures State() == Grow(old(State()))
    {
      var h := grid.GetHeight(activeX, activeZ);
      h := Clamp(h + 1, 0, MAX_HEIGHT);
      ghost var before: seq<seq<Column>> := grid.Cells();
      grid.SetHeight(activeX, activeZ, h);
      grid.SetColour(activeX, activeZ, currentCol);
      SetCellTwice(before, activeX, activeZ, Column(h, before[activeX][activeZ].colour), Column(h, currentCol));
    }

    /** Left or right arrow. */
    method MoveAlongX(dx: int, shift: bool)
      requires Valid() && (dx == -1 || dx == 1)
      modifies this`activeX, grid.heights, grid.colours
      ensures Valid()
      ensures State() == MoveX(old(State()), dx, shift)
    {
      var newX := Clamp(activeX + dx, 0, DIM - 1);
      if activeX != newX && shift {
        CarryTo(newX, activeZ);
      }
      activeX := newX;
    }

    /** Up or down arrow. */
    method MoveAlongZ(dz: int, shift: bool)
      requires Valid() && (dz == -1 || dz == 1)
      modifies this`activeZ, grid.heights, grid.colours
      ensures Valid()
      ensures State() == MoveZ(old(State()), dz, shift)
    {
      var newZ := Clamp(activeZ + dz, 0, DIM - 1);
      if activeZ != newZ && shift {
        CarryTo(activeX, newZ);
      }
      activeZ := newZ;
    }

    /** A1::keyInputEvent. */
    method KeyInputEvent(key: int, action: int, mods: bv32) returns (eventHandled: bool)
      requires Valid()
      modifies this, grid.heights, grid.colours
      ensures Valid()
      ensures (State(), eventHandled) == KeyInput(old(State()), key, action, mods)
    {
      ghost var s0 := State();
      eventHandled := false;
      if action == GLFW_PRESS {
        if key == GLFW_KEY_Q {
          quitRequested := true;
          eventHandled := true;
          assert State() == s0.(quitRequested := true);
        } else if key == GLFW_KEY_R {
          Reset();
          eventHandled := true;
        } else if key == GLFW_KEY_BACKSPACE {
          ShrinkActive();
          eventHandled := true;
        } else if key == GLFW_KEY_SPACE {
          GrowActive();
          eventHandled := true;
        } else if key == GLFW_KEY_UP {
          MoveAlongZ(-1, ShiftHeld(mods));
          eventHandled := true;
        } else if key == GLFW_KEY_DOWN {
          MoveAlongZ(1, ShiftHeld(mods));
          eventHandled := true;
        } else if key == GLFW_KEY_LEFT {
          MoveAlongX(-1, ShiftHeld(mods));
          eventHandled := true;
        } else if key == GLFW_KEY_RIGHT {
          MoveAlongX(1, ShiftHeld(mods));
          eventHandled := true;
        }
      }
      assert (State(), eventHandled) == KeyInput(s0, key, action, mods);
    }

    /** The colour radio button `i` of A1::guiLogic: ImGui stores `i` in the
        selection, and the active cell is repainted with it. */
    method ColourButtonClicked(i: int)
      requires Valid() && 0 <= i < NUM_COLOUR
      modifies this`currentCol, grid.colours
      ensures Valid()
      ensures State() == SelectColour(old(State()), i)
    {
      currentCol := i;
      grid.SetColour(activeX, activeZ, currentCol);
    }

    /** A1::mouseButtonInputEvent; `overUi` is the answer of
        ImGui::IsMouseHoveringAnyWindow(). */
    method MouseButtonInputEvent(button: int, actions: int, mods: bv32, overUi: bool) returns (eventHandled: bool)
      requires Valid()
      modifies this`rotating
      ensures Valid()
      ensures (rotating, eventHandled) == ButtonInput(old(rotating), button, actions, overUi)
    {
      eventHandled := false;
      if !overUi {
        if button == GLFW_MOUSE_BUTTON_LEFT && actions == GLFW_PRESS {
          rotating := true;
          eventHandled := true;
        } else if button == GLFW_MOUSE_BUTTON_LEFT && actions == GLFW_RELEASE {
          rotating := false;
          eventHandled := true;
        }
      }
    }

    /** The filled cubes of the non-active column (x, z), bottom to top. */
    method DrawStack(x: int, z: int) returns (out: seq<Instr>)
      requires Valid() && InGrid(x, z)
      ensures out == Stack(x, z, grid.Cells()[x][z].colour, grid.Cells()[x][z].height)
    {
      var h := grid.GetHeight(x, z);
      var c := grid.GetColour(x, z);
      out := [];
      for y := 0 to h
        invariant out == Stack(x, z, c, y)
      {
        out := out + [DrawCube(x, y, z, Filled, Swatch(c), true)];
      }
    }

    /** The inner loop of the depth-checked pass over row x, skipping the
        active cell. */
    method DrawRow(x: int) returns (out: seq<Instr>)
      requires Valid() && 0 <= x < DIM
      ensures out == RowPrefix(grid.Cells(), activeX, activeZ, x, DIM)
    {
      out := [];
      for z := 0 to DIM
        invariant out == RowPrefix(grid.Cells(), activeX, activeZ, x, z)
      {
        if x == activeX && z == activeZ {
          continue;
        }
        var cubes := DrawStack(x, z);
        out := out + cubes;
      }
    }

    /** The active column with depth testing off: layers 0 .. h, each
        filled below the top and always outlined in black. */
    method DrawActive() returns (out: seq<Instr>)
      requires Valid()
      ensures out == Highlight(activeX, activeZ, grid.Cells()[activeX][activeZ], grid.Cells()[activeX][activeZ].height + 1)
    {
      var h := grid.GetHeight(activeX, activeZ);
      var c := grid.GetColour(activeX, activeZ);
      out := [];
      for y := 0 to h + 1
        invariant out == Highlight(activeX, activeZ, Column(h, c), y)
      {
        if y < h {
          out := out + [DrawCube(activeX, y, activeZ, Filled, Swatch(c), false)];
        }
        out := out + [DrawCube(activeX, y, activeZ, Outline, Black, false)];
      }
    }

    /** A1::draw, emitting instructions instead of GL calls: the grid, the
        non-active columns in x-outer, z-inner, bottom-to-top order, then
        the active column. */
    method Draw() returns (instrs: seq<Instr>)
      requires Valid()
      ensures instrs == Compose(grid.Cells(), activeX, activeZ)
    {
      ghost var cells: seq<seq<Column>> := grid.Cells();
      var body: seq<Instr> := [];
      for x := 0 to DIM
        invariant body == Rows(cells, activeX, activeZ, x)
      {
        var row := DrawRow(x);
        body := body + row;
      }
      var top := DrawActive();
      instrs := [GridInstr()] + body + top;
      assert instrs == Compose(cells, activeX, activeZ);
    }
  }
}
