# Canvas drag-reflow geometry and JS library reset, in Dafny

This project models two small parts of the page-builder client.

**Canvas drag-reflow geometry** (module `CanvasDraggingUtils`, file
`canvas_dragging_utils.dfy`). While a widget is dragged or resized on the
canvas, four pure functions decide and convert reflow geometry:

- `getEdgeDirection` decides which container edge a drag point is nearest.
  It returns the push direction facing away from that edge: left edge → RIGHT,
  right edge → LEFT, top edge → BOTTOM, bottom edge → TOP. When the extent is
  unknown it returns the current direction.
- `getMoveDirection` classifies the move between two successive occupied
  spaces as RIGHT, LEFT, BOTTOM or TOP. It returns the current direction when
  nothing moved (the model's assumption).
- `getReflowedSpaces` turns a widget's pixel reflow offset and pixel size into
  its new grid-unit occupied space.
- `modifyDrawingRectangles` turns grid-unit spaces back into pixel drawing
  rectangles. It keeps each rectangle's pixel offset inside its grid cell.

The implementation file `canvasDraggingUtils.ts` is not part of this model.
The behaviour comes from its test file, which pins down the cases below.
Where the tests leave a rule open, the model makes these assumptions of its own:

- `getEdgeDirection` uses four distances: `x`, `extent − x`, `y` and
  `extent − y`. Ties go to the earliest edge in the order left, right, top,
  bottom.
- `getMoveDirection` uses `dx = curr.left − prev.left` and
  `dy = curr.top − prev.top`. The axis with the larger absolute displacement
  wins. When `|dx| = |dy|`, the horizontal axis wins. When nothing moved, the
  current direction is returned.
- A cell size that is not positive is an error (`InvalidScale`) for both
  projectors.
- `modifyDrawingRectangles` snaps every rectangle whose widget has a space.
  Rectangles without a space pass through unchanged.
- The edge distances are the raw `x` and `y` offsets, so a point is taken to
  lie inside the container.

Every JavaScript `number` is an exact `real`, so there is no floating-point
rounding. JavaScript's `%` truncates toward zero and keeps the sign of the
dividend. It is written out as `JsRem`, because Dafny's own `%` is Euclidean.

**JS library reset** (module `JSLibrary`, file `js_library.dfy`).
`resetJSLibraries` runs in the evaluation worker. It empties the shared
`JSLibraries` array in place and refills it with `defaultLibraries`. Then it
walks the `libraryReservedNames` set. Each name that is not the first accessor
of a default library gets `undefined` on the worker's global scope and is
deleted from the set. The function returns the same array object.

The array, the set and the global scope are modelled as three classes
(`LibraryArray`, `ReservedNameSet`, `WorkerScope`) whose fields the method
updates. The method requires the two arrays to be distinct objects.
Otherwise line 8 would also empty the defaults.

`Wrappers` (file `wrappers.dfy`) holds the `Option` and `Result` types.

## Model

| member | source | states |
|---|---|---|
| `CanvasDraggingUtils.GetEdgeDirection` | app/client/src/pages/common/CanvasArenas/hooks/canvasDraggingUtils.test.ts:10-31 | With no extent the current direction comes back unchanged. With an extent the result is never UNSET, and it pushes away from an edge whose distance is minimal among the four. |
| `CanvasDraggingUtils.EdgeDirectionUniqueNearest` | app/client/src/pages/common/CanvasArenas/hooks/canvasDraggingUtils.test.ts:11-25 | When one edge is strictly nearer than the other three, the result is the push away from that edge, whatever the tie-breaking. |
| `CanvasDraggingUtils.EdgeDirectionTieOrder` | app/client/src/pages/common/CanvasArenas/hooks/canvasDraggingUtils.test.ts:11-25 | Each of RIGHT, LEFT, BOTTOM and TOP is returned exactly when its edge is nearest and no edge earlier in the order left, right, top, bottom is as near (both directions of each iff). |
| `CanvasDraggingUtils.EdgeDirectionExamples` | app/client/src/pages/common/CanvasArenas/hooks/canvasDraggingUtils.test.ts:10-31 | (5,10) in 100 → RIGHT; (10,5) → BOTTOM; (95,10) → LEFT; no extent → UNSET. |
| `CanvasDraggingUtils.GetMoveDirection` | app/client/src/pages/common/CanvasArenas/hooks/canvasDraggingUtils.test.ts:100-157 | Without movement the current direction comes back. After a movement the result is a direction on which the displacement projects furthest, and that projection is positive. |
| `CanvasDraggingUtils.MoveDirectionSigns` | app/client/src/pages/common/CanvasArenas/hooks/canvasDraggingUtils.test.ts:109-156 | RIGHT iff dx > 0 and it dominates; LEFT iff dx < 0 and it dominates; BOTTOM and TOP likewise for dy, which must strictly dominate. |
| `CanvasDraggingUtils.MoveDirectionReversed` | app/client/src/pages/common/CanvasArenas/hooks/canvasDraggingUtils.test.ts:100-157 | Swapping the previous and current positions of a real move gives the opposite direction. |
| `CanvasDraggingUtils.MoveDirectionTranslationInvariant` | app/client/src/pages/common/CanvasArenas/hooks/canvasDraggingUtils.test.ts:100-157 | Shifting both positions by the same amount does not change the direction. |
| `CanvasDraggingUtils.MoveDirectionExamples` | app/client/src/pages/common/CanvasArenas/hooks/canvasDraggingUtils.test.ts:100-157 | The four test moves give RIGHT, BOTTOM, LEFT and TOP. |
| `CanvasDraggingUtils.GetReflowedSpaces` | app/client/src/pages/common/CanvasArenas/hooks/canvasDraggingUtils.test.ts:33-62 | The result is an error exactly when a cell size is not positive. A widget that is not reflowing keeps its space. Otherwise the id is kept, the shift times the cell size is the pixel offset X (Y), and the span times the cell size is the pixel width (height). |
| `CanvasDraggingUtils.ReflowedSpaceIsValid` | app/client/src/pages/common/CanvasArenas/hooks/canvasDraggingUtils.test.ts:33-62 | A valid space (left ≤ right, top ≤ bottom) stays valid when the reflowed pixel size is not negative. |
| `CanvasDraggingUtils.ReflowedSpaceScaleInvariant` | app/client/src/pages/common/CanvasArenas/hooks/canvasDraggingUtils.test.ts:33-62 | Linearity: scaling all pixel offsets and both cell sizes by the same positive factor leaves the grid result unchanged. |
| `CanvasDraggingUtils.ReflowedSpacesExample` | app/client/src/pages/common/CanvasArenas/hooks/canvasDraggingUtils.test.ts:33-62 | {10,10,50,70} with offset {30,40,300,500} and cells 10×10 gives {13,14,43,64}, id kept. |
| `CanvasDraggingUtils.JsRem` | app/client/src/pages/common/CanvasArenas/hooks/canvasDraggingUtils.test.ts:64-98 | JavaScript's `%` by a positive divisor: the result is in [0, m) for a non-negative dividend and in (−m, 0] for a non-positive one. |
| `CanvasDraggingUtils.JsRemTakesWholeMultiples` | app/client/src/pages/common/CanvasArenas/hooks/canvasDraggingUtils.test.ts:64-98 | For every dividend, the dividend minus `%`'s result is a whole multiple of the divisor. With the sign bounds this pins down the remainder exactly. |
| `CanvasDraggingUtils.SnapToCell` | app/client/src/pages/common/CanvasArenas/hooks/canvasDraggingUtils.test.ts:64-98 | The snapped position lies within one cell of the cell's grid-aligned pixel position. It lies inside that cell when the old position is not negative, It lies in the cell just before it, up to and including the grid-aligned position, when the old position is not positive. The reason is that JavaScript's `%` keeps the dividend's sign. |
| `CanvasDraggingUtils.SnapToCellKeepsOffsetModCell` | app/client/src/pages/common/CanvasArenas/hooks/canvasDraggingUtils.test.ts:64-98 | For every input, the snapped position differs from the old pixel position plus the grid shift by a whole number of cells. So the offset inside a cell is kept modulo the cell size. |
| `CanvasDraggingUtils.SnapToCellKeepsSubCellOffset` | app/client/src/pages/common/CanvasArenas/hooks/canvasDraggingUtils.test.ts:64-98 | Remainder preservation: for a non-negative position and a whole, non-negative cell, the new position has the same remainder modulo the cell size as the old one. |
| `CanvasDraggingUtils.ProjectRectangle` | app/client/src/pages/common/CanvasArenas/hooks/canvasDraggingUtils.test.ts:64-98 | widgetId and isNotColliding are copied. columnWidth and rowHeight become the space's grid spans. The pixel width divided by the cell width gives back the column span, and likewise for height and row span. left and top are the rectangle's old positions snapped to the space's left and top cells. |
| `CanvasDraggingUtils.ProjectAll` | app/client/src/pages/common/CanvasArenas/hooks/canvasDraggingUtils.test.ts:95-97 | One output per input, in order, widget ids kept. A rectangle with a space is projected onto it; one without passes through unchanged. |
| `CanvasDraggingUtils.ModifyDrawingRectangles` | app/client/src/pages/common/CanvasArenas/hooks/canvasDraggingUtils.test.ts:64-98 | The result is an error exactly when a cell size is not positive. Otherwise it has the same length and order as the input, with each rectangle projected or passed through. |
| `CanvasDraggingUtils.ReflowThenProjectRoundTrip` | app/client/src/pages/common/CanvasArenas/hooks/canvasDraggingUtils.test.ts:33-98 | Drawing a reflowed space gives back the widget's pixel width and height exactly. Its left (top) is where the rectangle would snap on the old space, moved by exactly the pixel offset X (Y). |
| `CanvasDraggingUtils.DrawingRectanglesExample` | app/client/src/pages/common/CanvasArenas/hooks/canvasDraggingUtils.test.ts:64-98 | The test rectangle {104,102,…} on space {25,30,65,80} with cells 10×10 becomes {254,302,400,500,40,50,"id",true}. |
| `JSLibrary.ResetJSLibraries` | app/client/src/workers/Evaluation/JSLibrary/index.ts:7-21 | Returns the same array object. That array then holds exactly the default libraries, in order. The defaults are unchanged. The reserved set becomes its retained part. The global scope is the old one with `undefined` set for every released name and nothing else changed. |
| `JSLibrary.AccessorsIncludeExactlyFirstAccessors` | app/client/src/workers/Evaluation/JSLibrary/index.ts:10-14 | `includes(key)` holds iff some default library has key as its first accessor. A library with no accessors matches no name. |
| `JSLibrary.RetainedNames` | app/client/src/workers/Evaluation/JSLibrary/index.ts:13-19 | The retained names are a subset of the old set, so no name is added. A reserved name is retained iff it is some default library's first accessor. |
| `JSLibrary.RetainedNamesIdempotent` | app/client/src/workers/Evaluation/JSLibrary/index.ts:13-19 | Pruning an already pruned set changes nothing, so a second reset releases no further name. |
| `JSLibrary.ResetClearsExactlyReleasedGlobals` | app/client/src/workers/Evaluation/JSLibrary/index.ts:13-17 | After the reset, every released name reads `undefined`. Every other name keeps its presence and its value. |

## Left out

- `canvasDraggingUtils.ts` itself is not part of this model. The tie-breaking rules, the no-movement rule, the `InvalidScale` error for non-positive cell sizes and snapping every rectangle that has a space are the model's own assumptions. The tests neither confirm nor contradict them.
- Floating-point rounding: all arithmetic is exact over `real`. Every test value is a whole number, so the tests do not tell the two apart.
- CanvasDraggingUtils.SnapToCellKeepsSubCellOffset: stated only for non-negative pixel positions and whole, non-negative cells. For a negative position, JavaScript's `%` is negative, so the snapped position can have a different remainder. `NegativePixelSnapExample` exhibits one such case: −4 snapped into cell 25 of width 10 lands at 246, whose remainder is 6. `SnapToCellKeepsOffsetModCell` still states, for every input, that the snapped position is congruent to the old one modulo the cell size.
- JSLibrary.ResetJSLibraries: a JavaScript `Set` is visited in insertion order. The model visits names in an arbitrary order. The end state does not depend on the order, and the contract states the end state.
- The aliasing case `JSLibraries === defaultLibraries` is excluded by a precondition and not modelled.
- The worker global object is an abstract map from names to opaque values. What a library installed there is not modelled.
- Action execution sagas, the lazy-render widget wrapper, and the evaluation-worker action-binding handler are not part of this model. They are generator orchestration, browser scheduling, and a wrapper around code that is not shown.
