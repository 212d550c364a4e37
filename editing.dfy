/** The editor's state machine as functions on values.  A `Session` is
    everything the key, colour and mouse-button handlers of the editor read
    or write; each handler is a function from the old session to the new
    one, and the class `Editor.A1` is proved to follow these functions. */
module Editing {
  import opened VoxelGrid

  /** Event codes, with the values of the GLFW 3 header (glfw3.h). */
  const GLFW_RELEASE: int := 0
  const GLFW_PRESS: int := 1
  const GLFW_KEY_SPACE: int := 32
  const GLFW_KEY_Q: int := 81
  const GLFW_KEY_R: int := 82
  const GLFW_KEY_BACKSPACE: int := 259
  const GLFW_KEY_RIGHT: int := 262
  const GLFW_KEY_LEFT: int := 263
  const GLFW_KEY_DOWN: int := 264
  const GLFW_KEY_UP: int := 265
  const GLFW_MOD_SHIFT: bv32 := 1
  const GLFW_MOUSE_BUTTON_LEFT: int := 0

  /** The editor state the handlers touch: the grid, the active cell, the
      selected colour, the camera scalars that reset restores, the drag flag
      and whether the window was asked to close. */
  datatype Session = Session(
    cells: seq<seq<Column>>,
    activeX: int,
    activeZ: int,
    currentCol: int,
    rotAngle: real,
    scale: real,
    rotating: bool,
    quitRequested: bool)

  /** The invariant every handler keeps. */
  ghost predicate ValidSession(s: Session) {
    && ValidCells(s.cells)
    && InGrid(s.activeX, s.activeZ)
    && 0 <= s.currentCol < NUM_COLOUR
  }

  /** glm::clamp on int. */
  function Clamp(v: int, lo: int, hi: int): (r: int)
    requires lo <= hi
    ensures lo <= r <= hi
    ensures lo <= v <= hi ==> r == v
    ensures v < lo ==> r == lo
    ensures hi < v ==> r == hi
  {
    if v < lo then lo else if hi < v then hi else v
  }

  /** `mods & GLFW_MOD_SHIFT` is non-zero: the modifier word is odd. */
  function ShiftHeld(mods: bv32): (held: bool)
    ensures held <==> mods % 2 == 1
  {
    mods & GLFW_MOD_SHIFT != 0
  }

  /** The column under the cursor. */
  function Active(s: Session): Column
    requires ValidSession(s)
  {
    s.cells[s.activeX][s.activeZ]
  }

  /** Backspace: the active column loses one unit, never going below 0; its
      colour and every other cell stay as they were. */
  function Shrink(s: Session): (r: Session)
    requires ValidSession(s)
    ensures ValidSession(r)
    ensures r.(cells := s.cells) == s
    ensures Active(r).height == (if Active(s).height == 0 then 0 else Active(s).height - 1)
    ensures Active(r).colour == Active(s).colour
    ensures AgreeExcept(r.cells, s.cells, s.activeX, s.activeZ)
  {
    var h := Clamp(Active(s).height - 1, 0, MAX_HEIGHT);
    s.(cells := SetCell(s.cells, s.activeX, s.activeZ, Column(h, Active(s).colour)))
  }

  /** Space: the active column gains one unit, never above MAX_HEIGHT, and
      takes the selected colour; every other cell stays as it was. */
  function Grow(s: Session): (r: Session)
    requires ValidSession(s)
    ensures ValidSession(r)
    ensures r.(cells := s.cells) == s
    ensures Active(r).height == (if Active(s).height == MAX_HEIGHT then MAX_HEIGHT else Active(s).height + 1)
    ensures Active(r).colour == s.currentCol
    ensures AgreeExcept(r.cells, s.cells, s.activeX, s.activeZ)
  {
    var h := Clamp(Active(s).height + 1, 0, MAX_HEIGHT);
    s.(cells := SetCell(s.cells, s.activeX, s.activeZ, Column(h, s.currentCol)))
  }

  /** The colour radio button `i`: the selection becomes `i` and the active
      column is repainted with it; heights and every other cell stay. */
  function SelectColour(s: Session, i: int): (r: Session)
    requires ValidSession(s) && 0 <= i < NUM_COLOUR
    ensures ValidSession(r)
    ensures r.currentCol == i
    ensures r.(cells := s.cells, currentCol := s.currentCol) == s
    ensures Active(r) == Column(Active(s).height, i)
    ensures AgreeExcept(r.cells, s.cells, s.activeX, s.activeZ)
  {
    var s1 := s.(currentCol := i);
    s1.(cells := SetCell(s1.cells, s1.activeX, s1.activeZ, Column(Active(s1).height, i)))
  }

  /** Left and right arrows (dx = -1 or +1): the cursor moves one cell along
      x, clamped to the grid.  With Shift, and only when the cursor really
      moved, the old active column is copied onto the new one. */
  function MoveX(s: Session, dx: int, shift: bool): (r: Session)
    requires ValidSession(s) && (dx == -1 || dx == 1)
    ensures ValidSession(r)
    ensures r.activeX == Clamp(s.activeX + dx, 0, DIM - 1)
    ensures r.(cells := s.cells, activeX := s.activeX) == s
    ensures r.activeX == s.activeX ==> r == s
    ensures !shift ==> r.cells == s.cells
    ensures shift && r.activeX != s.activeX ==>
      && Active(r) == Active(s)
      && r.cells[s.activeX][s.activeZ] == Active(s)
      && AgreeExcept(r.cells, s.cells, r.activeX, r.activeZ)
  {
    var newX := Clamp(s.activeX + dx, 0, DIM - 1);
    var cells := if s.activeX != newX && shift then CopyCell(s.cells, s.activeX, s.activeZ, newX, s.activeZ) else s.cells;
    s.(cells := cells, activeX := newX)
  }

  /** Up and down arrows (dz = -1 or +1): as MoveX, along z. */
  function MoveZ(s: Session, dz: int, shift: bool): (r: Session)
    requires ValidSession(s) && (dz == -1 || dz == 1)
    ensures ValidSession(r)
    ensures r.activeZ == Clamp(s.activeZ + dz, 0, DIM - 1)
    ensures r.(cells := s.cells, activeZ := s.activeZ) == s
    ensures r.activeZ == s.activeZ ==> r == s
    ensures !shift ==> r.cells == s.cells
    ensures shift && r.activeZ != s.activeZ ==>
      && Active(r) == Active(s)
      && r.cells[s.activeX][s.activeZ] == Active(s)
      && AgreeExcept(r.cells, s.cells, r.activeX, r.activeZ)
  {
    var newZ := Clamp(s.activeZ + dz, 0, DIM - 1);
    var cells := if s.activeZ != newZ && shift then CopyCell(s.cells, s.activeX, s.activeZ, s.activeX, newZ) else s.cells;
    s.(cells := cells, activeZ := newZ)
  }

  /** The shift-carry: the height and the colour of (fx, fz) are written
      onto (tx, tz). */
  function CopyCell(cells: seq<seq<Column>>, fx: int, fz: int, tx: int, tz: int): (r: seq<seq<Column>>)
    requires ValidCells(cells) && InGrid(fx, fz) && InGrid(tx, tz)
    ensures ValidCells(r)
    ensures r[tx][tz] == cells[fx][fz]
    ensures AgreeExcept(r, cells, tx, tz)
  {
    var from := cells[fx][fz];
    SetCell(cells, tx, tz, Column(from.height, from.colour))
  }

  /** A1::reset: every cell empty with colour 0, cursor at (0, 0), colour 0
      selected, no rotation, unit scale.  The drag flag and a pending quit
      request are not touched. */
  function ResetSession(s: Session): (r: Session)
    ensures ValidSession(r)
    ensures forall x, z :: InGrid(x, z) ==> r.cells[x][z] == Column(0, 0)
    ensures r.activeX == 0 && r.activeZ == 0 && r.currentCol == 0
    ensures r.rotAngle == 0.0 && r.scale == 1.0
    ensures r.rotating == s.rotating && r.quitRequested == s.quitRequested
  {
    s.(cells := EmptyCells(), activeX := 0, activeZ := 0, currentCol := 0, rotAngle := 0.0, scale := 1.0)
  }

  /** The keys keyInputEvent reacts to. */
  predicate IsBoundKey(key: int) {
    key in {GLFW_KEY_Q, GLFW_KEY_R, GLFW_KEY_BACKSPACE, GLFW_KEY_SPACE,
            GLFW_KEY_UP, GLFW_KEY_DOWN, GLFW_KEY_LEFT, GLFW_KEY_RIGHT}
  }

  predicate IsArrowKey(key: int) {
    key in {GLFW_KEY_UP, GLFW_KEY_DOWN, GLFW_KEY_LEFT, GLFW_KEY_RIGHT}
  }

  /** A1::keyInputEvent: the new session and whether the event was handled.
      Only a press of a bound key does anything, and such an event is always
      reported handled. */
  function KeyInput(s: Session, key: int, action: int, mods: bv32): (r: (Session, bool))
    requires ValidSession(s)
    ensures ValidSession(r.0)
    ensures r.1 <==> action == GLFW_PRESS && IsBoundKey(key)
    ensures !r.1 ==> r.0 == s
    ensures r.1 && IsArrowKey(key) ==>
      && r.0.(activeX := s.activeX, activeZ := s.activeZ, cells := s.cells) == s
      && (!ShiftHeld(mods) ==> r.0.cells == s.cells)
      && (if key == GLFW_KEY_LEFT || key == GLFW_KEY_RIGHT
          then r.0.activeZ == s.activeZ && r.0.activeX == Clamp(s.activeX + (if key == GLFW_KEY_LEFT then -1 else 1), 0, DIM - 1)
          else r.0.activeX == s.activeX && r.0.activeZ == Clamp(s.activeZ + (if key == GLFW_KEY_UP then -1 else 1), 0, DIM - 1))
  {
    if action != GLFW_PRESS then (s, false)
    else if key == GLFW_KEY_Q then (s.(quitRequested := true), true)
    else if key == GLFW_KEY_R then (ResetSession(s), true)
    else if key == GLFW_KEY_BACKSPACE then (Shrink(s), true)
    else if key == GLFW_KEY_SPACE then (Grow(s), true)
    else if key == GLFW_KEY_UP then (MoveZ(s, -1, ShiftHeld(mods)), true)
    else if key == GLFW_KEY_DOWN then (MoveZ(s, 1, ShiftHeld(mods)), true)
    else if key == GLFW_KEY_LEFT then (MoveX(s, -1, ShiftHeld(mods)), true)
    else if key == GLFW_KEY_RIGHT then (MoveX(s, 1, ShiftHeld(mods)), true)
    else (s, false)
  }

  /** A1::mouseButtonInputEvent: the new drag flag and whether the event was
      handled.  `overUi` stands for ImGui::IsMouseHoveringAnyWindow(). */
  function ButtonInput(rotating: bool, button: int, action: int, overUi: bool): (r: (bool, bool))
    ensures r.1 <==> !overUi && button == GLFW_MOUSE_BUTTON_LEFT && (action == GLFW_PRESS || action == GLFW_RELEASE)
    ensures r.1 ==> r.0 == (action == GLFW_PRESS)
    ensures !r.1 ==> r.0 == rotating
  {
    if overUi then (rotating, false)
    else if button == GLFW_MOUSE_BUTTON_LEFT && action == GLFW_PRESS then (true, true)
    else if button == GLFW_MOUSE_BUTTON_LEFT && action == GLFW_RELEASE then (false, true)
    else (rotating, false)
  }

  // ---------------------------------------------------------------------
  // Properties relating several events.

  /** Space then Backspace below the top restores the height; the column
      keeps the colour Space stamped, which is the selected one. */
  lemma GrowThenShrink(s: Session)
    requires ValidSession(s) && Active(s).height < MAX_HEIGHT
    ensures Active(Shrink(Grow(s))) == Column(Active(s).height, s.currentCol)
    ensures AgreeExcept(Shrink(Grow(s)).cells, s.cells, s.activeX, s.activeZ)
    ensures Shrink(Grow(s)).(cells := s.cells) == s
  {
    var g := Grow(s);
    assert forall i, j :: InGrid(i, j) && (i != s.activeX || j != s.activeZ) ==>
      Shrink(g).cells[i][j] == g.cells[i][j] == s.cells[i][j];
  }

  /** Backspace then Space above the bottom restores the height (colour:
      the selected one). */
  lemma ShrinkThenGrow(s: Session)
    requires ValidSession(s) && 0 < Active(s).height
    ensures Active(Grow(Shrink(s))) == Column(Active(s).height, s.currentCol)
    ensures AgreeExcept(Grow(Shrink(s)).cells, s.cells, s.activeX, s.activeZ)
  {
    var k := Shrink(s);
    assert forall i, j :: InGrid(i, j) && (i != s.activeX || j != s.activeZ) ==>
      Grow(k).cells[i][j] == k.cells[i][j] == s.cells[i][j];
  }

  /** Without Shift, an arrow away from an edge and the opposite arrow
      bring the whole session back. */
  lemma MoveRoundTrip(s: Session)
    requires ValidSession(s)
    ensures s.activeX < DIM - 1 ==> MoveX(MoveX(s, 1, false), -1, false) == s
    ensures 0 < s.activeX ==> MoveX(MoveX(s, -1, false), 1, false) == s
    ensures s.activeZ < DIM - 1 ==> MoveZ(MoveZ(s, 1, false), -1, false) == s
    ensures 0 < s.activeZ ==> MoveZ(MoveZ(s, -1, false), 1, false) == s
  {
  }

  /** Shift+Right from (2, 2) holding height 3 and colour 1 leaves both
      (2, 2) and (3, 2) holding height 3 and colour 1, with (3, 2) active. */
  lemma ShiftRightCarries(s: Session)
    requires ValidSession(s) && s.activeX == 2 && s.activeZ == 2
    requires s.cells[2][2] == Column(3, 1)
    ensures var r := KeyInput(s, GLFW_KEY_RIGHT, GLFW_PRESS, GLFW_MOD_SHIFT).0;
      && r.activeX == 3 && r.activeZ == 2
      && r.cells[3][2] == Column(3, 1)
      && r.cells[2][2] == Column(3, 1)
  {
  }

  /** Resetting twice is resetting once. */
  lemma ResetIdempotent(s: Session)
    ensures ResetSession(ResetSession(s)) == ResetSession(s)
  {
  }

  /** A drag only ends on a release of the left button outside the UI. */
  lemma DragEndsOnlyOnRelease(button: int, action: int, overUi: bool)
    ensures !ButtonInput(true, button, action, overUi).0 <==>
      !overUi && button == GLFW_MOUSE_BUTTON_LEFT && action == GLFW_RELEASE
  {
  }
}
