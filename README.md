# Voxel-height editor (A1) — a verified Dafny model

The editor shows a 16 x 16 grid of columns. Each column has a height from
0 to 20 and one of 8 palette colours. One cell, the active cell, is the
cursor.

- Backspace lowers the active column by one. Space raises it by one and
  paints it with the selected colour.
- The arrow keys move the cursor, clamped at the grid edges. Holding Shift
  also carries the old column onto the new cell.
- A colour radio button selects a colour and repaints the active column.
- `R` resets the editor; `Q` asks the window to close.
- Pressing and releasing the left mouse button starts and stops a rotation
  drag.
- Each frame draws the ground grid, every other column as filled cubes, and
  the active column highlighted with black outlines, one level higher than
  its height.

The project has five modules:

- `VoxelGrid` (`voxel_grid.dfy`): the constants, the `Column` value and the
  `Grid` class. `Grid` holds two `array2<int>` (heights and colours) and
  exposes an abstract view `Cells()`.
- `Editing` (`editing.dfy`): every event handler as a function from an old
  `Session` to a new one, with the invariant `ValidSession` and lemmas that
  relate several events.
- `Scene` (`scene.dfy`): the frame as an ordered list of draw instructions
  (`Compose`), with lemmas on exactly which cubes a frame holds and in which
  order.
- `GridLines` (`grid_lines.dfy`): the counter-driven fill of the grid-line
  vertex buffer.
- `Editor` (`editor.dfy`): class `A1`, with the fields of the editor and
  the imperative handlers, reset loops and draw loops.

Every method of `A1` that changes state is proved to move `State()` exactly
as the matching `Editing` function does. `Draw` is proved to return
`Scene.Compose` of the current grid.

Space stamps the selected colour on the active column (A1.cpp:534), so
Space then Backspace restores the height but leaves the selected colour on
the column (`Editing.GrowThenShrink`).

## Model

| member | source | states |
|---|---|---|
| VoxelGrid.SetCell | A1.cpp:527 | a grid write changes cell (x, z) to the given column and leaves every other cell as it was |
| VoxelGrid.SetCellTwice | A1.cpp:533-534 | two writes to the same cell leave only the second, so writing height then colour is one cell update |
| VoxelGrid.EmptyCells | A1.cpp:622-627 | the cleared table: every cell height 0 and colour 0, within the cell invariant |
| VoxelGrid.CellsExt | A1.cpp:622-627 | two tables that agree on every cell are equal |
| VoxelGrid.Grid.constructor | A1.cpp:22 | a fresh grid of DIM x DIM empty cells |
| VoxelGrid.Grid.SetHeight | A1.cpp:527 | the cell's height becomes h; its colour and every other cell are unchanged |
| VoxelGrid.Grid.SetColour | A1.cpp:534 | the cell's colour becomes c; its height and every other cell are unchanged |
| VoxelGrid.Grid.GetHeight | A1.cpp:525 | the height read is the height of (x, z) in the abstract table |
| VoxelGrid.Grid.GetColour | A1.cpp:542 | the colour read is the colour of (x, z) in the abstract table |
| Editing.Clamp | A1.cpp:526 | the result lies in [lo, hi]; it is v when v is in range and the violated bound otherwise |
| Editing.ShiftHeld | A1.cpp:540 | the Shift test `mods & GLFW_MOD_SHIFT` holds exactly when the modifier word is odd (GLFW_MOD_SHIFT is bit 0) |
| Editing.Shrink | A1.cpp:524-528 | the active height becomes max(h - 1, 0); the active colour, every other cell and every other field are unchanged; the invariant is kept |
| Editing.Grow | A1.cpp:530-535 | the active height becomes min(h + 1, MAX_HEIGHT) and the active colour the selected one; nothing else changes; the invariant is kept |
| Editing.SelectColour | A1.cpp:263-265 | the selection becomes i and the active cell takes colour i with its height kept; nothing else changes |
| Editing.MoveZ | A1.cpp:537-561 | the cursor's z becomes clamp(z ± 1); x and the other fields stay. Without Shift the grid is untouched. With Shift and a real move, the new cell gets the old cell's column, the old cell keeps it and nothing else changes. At an edge the whole session is unchanged |
| Editing.MoveX | A1.cpp:563-587 | the same as MoveZ, along x |
| Editing.CopyCell | A1.cpp:541-544 | the target cell receives the source cell's height and colour; every other cell is unchanged |
| Editing.ResetSession | A1.cpp:601-628 | every cell is (0, 0), the cursor is (0, 0), colour 0 is selected, the angle is 0 and the scale 1; the drag and quit flags are kept |
| Editing.KeyInput | A1.cpp:510-593 | the event is handled exactly when it is a press of one of the eight bound keys; an unhandled event changes nothing; arrows move one axis by a clamped unit step and, without Shift, leave the grid alone; the invariant is kept |
| Editing.ButtonInput | A1.cpp:454-474 | handled exactly for a left-button press or release outside the UI; then the drag flag is whether it was a press; otherwise the flag is unchanged |
| Editing.GrowThenShrink | A1.cpp:524-535 | Space then Backspace below the top restores the height, leaves the selected colour on the column and changes nothing else |
| Editing.ShrinkThenGrow | A1.cpp:524-535 | Backspace then Space above the floor restores the height, with the selected colour |
| Editing.MoveRoundTrip | A1.cpp:537-587 | away from an edge, an unshifted arrow followed by the opposite arrow restores the whole session |
| Editing.ShiftRightCarries | A1.cpp:576-587 | Shift+Right from (2, 2) holding (3, 1) leaves both (2, 2) and (3, 2) holding (3, 1), with (3, 2) active |
| Editing.ResetIdempotent | A1.cpp:601-628 | resetting twice is resetting once |
| Editing.DragEndsOnlyOnRelease | A1.cpp:466-469 | a drag in progress stops exactly on a left-button release outside the UI |
| Scene.StackMembers | A1.cpp:336-351 | a column's stack holds exactly its filled, depth-checked cubes at levels 0 .. n - 1 |
| Scene.StackLayout | A1.cpp:336-351 | the stack of height n has n entries, entry y being the filled, depth-checked cube at level y |
| Scene.Layer | A1.cpp:375-383 | one level of the active column: two instructions (fill, then black outline) below the top, the outline alone otherwise; none depth-checked |
| Scene.HighlightLayout | A1.cpp:365-384 | up to the layer above the top, level y below the top is its fill at index 2y followed by its outline, and the layer above the top is one outline at the end; the length is 2n, or 2n - 1 when the layer above the top is included |
| Scene.RowPrefixMembers | A1.cpp:328-353 | the first nz cells of row x give exactly the column cubes of those cells |
| Scene.RowsMembers | A1.cpp:327-354 | the first nx rows give exactly the column cubes of those rows |
| Scene.HighlightMembers | A1.cpp:365-384 | the active layers below n are exactly the black outlines, and the filled cubes below the top |
| Scene.ComposeMembers | A1.cpp:315-384 | an instruction is in a frame exactly when it is the grid, a cube of a non-active column or a cube of the active column |
| Scene.Compose | A1.cpp:315-384 | the reference frame of A1::draw: it opens with the white grid instruction and closes with the black outline on top of the active column |
| Scene.ActivePassLayout | A1.cpp:356-384 | after the grid and the depth-checked pass come exactly 2h + 1 instructions: for every level below h the fill then the outline, then the outline of level h; so each fill and each outline is drawn once |
| Scene.ColumnDrawnIff | A1.cpp:327-354 | a non-active column has a filled cube at level y exactly when 0 <= y < height, and nothing else is drawn at its position |
| Scene.ActiveColumnDrawnIff | A1.cpp:356-384 | the active column has an outline at every level 0 .. h, a filled cube at every level below h, and no depth-checked cube |
| Scene.ComposeEmptyGrid | A1.cpp:315-384 | with every column empty, a frame is the grid plus one outline cube at level 0 of the active cell |
| Scene.ConcatOrdered | A1.cpp:327-354 | two scan-ordered lists, one wholly before the other, concatenate to a scan-ordered list |
| Scene.StackOrdered | A1.cpp:336-351 | a stack is in bottom-to-top order |
| Scene.RowPrefixOrdered | A1.cpp:328-353 | a row prefix is in z-then-y order |
| Scene.RowsOrdered | A1.cpp:327-354 | the depth-checked pass is in x-outer, z-inner, y-innermost order |
| Scene.ComposeOrder | A1.cpp:315-384 | a frame starts with the grid; every other instruction is a cube; the depth-checked cubes come in scan order and all before the cubes without depth testing |
| GridLines.InitGridVerts | A1.cpp:81-101 | the counter ends at the buffer size 3*2*2*(DIM+3), which is three floats for each of the (3+DIM)*4 vertices drawn; for each offset k in [-1, DIM+1] there is one line along x at z = k and one along z at x = k, both spanning -1 to DIM+1; every value is in [-1, DIM+1] |
| GridLines.LinesFromPairs | A1.cpp:85-101 | reading the buffer filled twelve floats per offset as six-float lines gives those lines and that bound |
| Editor.A1.constructor | A1.cpp:20-28 | a fresh editor is valid, with an empty grid, the cursor at (0, 0), colour 0, angle 0, scale 1 and no drag |
| Editor.A1.Reset | A1.cpp:601-628 | the nested loops leave the state that ResetSession gives, and the invariant holds |
| Editor.A1.ShrinkActive | A1.cpp:524-528 | the new state is Shrink of the old |
| Editor.A1.GrowActive | A1.cpp:530-535 | the new state is Grow of the old |
| Editor.A1.CarryTo | A1.cpp:540-545 | the grid becomes CopyCell of the old grid, from the active cell to (nx, nz) |
| Editor.A1.MoveAlongX | A1.cpp:563-587 | the new state is MoveX of the old |
| Editor.A1.MoveAlongZ | A1.cpp:537-561 | the new state is MoveZ of the old |
| Editor.A1.KeyInputEvent | A1.cpp:510-593 | the new state and the handled flag are those KeyInput gives for the old state; the invariant holds |
| Editor.A1.ColourButtonClicked | A1.cpp:263-265 | the new state is SelectColour of the old |
| Editor.A1.MouseButtonInputEvent | A1.cpp:454-474 | the drag flag and the handled flag are those ButtonInput gives |
| Editor.A1.DrawStack | A1.cpp:334-351 | the loop emits exactly the stack of the column (x, z) |
| Editor.A1.DrawRow | A1.cpp:328-353 | the loop emits exactly row x of the depth-checked pass, without the active cell |
| Editor.A1.DrawActive | A1.cpp:356-384 | the loop emits exactly the highlight layers 0 .. h of the active column |
| Editor.A1.Draw | A1.cpp:315-384 | the frame is Compose of the current grid and cursor |

## Left out

- OpenGL: shader build, uniforms, VAO/VBO setup, matrices, polygon mode and the draw calls themselves are GPU calls. A frame is modelled as the list of logical draw instructions.
- ImGui: the window, the `ColorEdit3` palette editors and the framerate text are UI. Only the effect of a colour radio button being chosen is kept.
- The Reset Controls button calls the same `reset` as the `R` key, which `Editor.A1.Reset` models.
- Closing the window on `Q` and on the Quit button is a GLFW side effect. It is modelled as the flag `quitRequested`, for `Q` only.
- `IsMouseHoveringAnyWindow` is an ImGui query. It is the parameter `overUi`.
- Floating-point camera maths is left out: the rotation accumulated in `mouseMoveEvent`, the clamped scale of `mouseScrollEvent`, the world transform `W`, and `lookAt`/`perspective`. The angle and scale are `real` fields that only reset writes.
- The RGB values of the palette and the `memcpy` that restores them. Colours are palette indices only.
- `m_rot_init_x` is written on a press but never read.
- The trivial handlers `cursorEnterWindowEvent`, `windowResizeEvent`, `appLogic` and `cleanup` do nothing worth modelling.
- grid.hpp is not part of this model. The grid is two plain integer arrays whose setters store the value given, without any clamping grid.hpp may do. Every value A1.cpp passes is already in range: Backspace and Space clamp the height, the Shift-carry copies a stored height and colour, reset writes 0, and the other colours come from the selected colour.
- GridLines.InitGridVerts: the buffer holds floats. Every value written is a small integer, so it is modelled as an `array<int>`.
- Editor.A1.Draw: the instruction for a cube records its grid position (x, y, z), not the transform matrix built from it.
