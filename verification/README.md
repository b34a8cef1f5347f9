# Soma-cube state engine in Dafny

This project models the discrete core of a browser-based Soma-cube puzzle and proves properties of that model. The player fills a figure (a `.soma` file of layered text) with the seven Soma pieces. The browser encodes the board as the same layered text and sends it to a Python back end. The back end validates the board against the figure, reduces it to a normal form over the 64 axis rotations, and counts it as new or known.

Modules follow the program's files:

- `GridManager` (frontend/js/gridManager.js): lattice dimensions, the occupied-cell set, the figure mask and its lookup, the wireframe edges, and the order of state changes in `loadGrid`.
- `PieceManager` (frontend/js/pieceManager.js): one placed instance per piece id, a single selection, moves snapped by `Math.round`, and quarter-turn rotation using JavaScript's `%`.
- `UiController` (frontend/js/uiController.js): the key table, the scan of placed cubes into a dense table, the all-filled check before submission, and the layered-text encoder.
- `SomaGrid` (backend/soma_grid.py): the `.soma` parser.
- `Validation` (backend/utils.py `is_valid_placement`): the cell-by-cell check of a board against the figure.
- `Normalization` (backend/utils.py `normalize_solution`): labelled points, rotations, the shift to the origin, re-rendering, and the least accepted rendering.
- `Solutions` (backend/utils.py `handle_solution`): the decision logic over a set of known normal forms.
- `Truncation`: the worked example behind the finding below.
- `Pipeline`: the components composed. A served figure loads, encodes back to itself when the board is empty, and every board the front end submits passes the back end's check.
- Support modules:
  - `Common`: `Option` and `Result`.
  - `Lattice`: cells and dimensions.
  - `Text`: Python's `str.strip`, `str.split`, `str.join`, and the order `min` uses.
  - `Layout`: the layered text format, with rows joined by `\n` and layers by `\n\n`.

Inputs that come from I/O in the program are parameters here:

- The figure file's content is an `Option<string>`, `None` when the file does not exist.
- The known-solution set is a `set<string>`. The set to be saved is returned.
- A fetched grid payload is an `Option<Payload>`.
- The placed cubes are a list of (world position, piece id) pairs.

## Model

| member | source | states |
|---|---|---|
| Text.Strip | backend/utils.py:46 | `str.strip()`: the result has no whitespace at either end and is no longer than the input |
| Text.StripIgnoresPadding | backend/utils.py:46 | whitespace added around a text does not change what it strips to |
| Text.Split | backend/utils.py:45-46 | Python's `str.split` with a non-empty separator: the text cut at every leftmost, non-overlapping occurrence, always at least one part; JoinSplit and SplitJoin pin it against Join |
| Text.Join | backend/utils.py:162-164 | Python's `sep.join(parts)`: the parts in order with the separator between neighbours, empty for no parts; JoinSplit and SplitJoin pin it against Split |
| Text.JoinSplit | backend/utils.py:104 | joining the parts of a split with the same separator gives back the text |
| Text.SplitJoin | backend/utils.py:158-164 | splitting a join whose parts contain no separator gives back the parts |
| Text.MinString | backend/utils.py:185 | `min` over strings: the result is one of them and is below every other one in Python's order |
| Layout.Render | backend/utils.py:158-164 | `grid_to_string`: each layer's rows joined by "\n", the layers joined by "\n\n"; RenderSplits states its inverse and RenderHas that every cell shows |
| Layout.RenderSplits | backend/utils.py:158-164 | a rendering of rows without whitespace is already stripped, and splitting it on `\n\n` then `\n` gives back the layers and rows |
| Layout.MaskSplits | frontend/js/gridManager.js:119-122 | a rendered mask splits back into its layers and rows, as `getOriginalCell` splits it |
| GridManager.Dedup | frontend/js/gridManager.js:59-61 | `new Set(list)` holds every listed cell and no other, each once, in order of first appearance |
| GridManager.IsOccupiedCell | frontend/js/gridManager.js:106 | `isOccupiedCell`: the cell is in the occupied set; UpdateGridState and ResetGridState state exactly which cells satisfy it |
| GridManager.IsWithinBounds | frontend/js/gridManager.js:108-112 | `isWithinBounds`: each coordinate is at least zero and below the width, height or depth; ScannedWithinBounds ties it to the scan |
| GridManager.ResetGridState | frontend/js/gridManager.js:65-69 | after a reset there are zero dimensions, no mask, and no cell is occupied |
| GridManager.UpdateGridState | frontend/js/gridManager.js:57-63 | dimensions, occupied set and mask are replaced together; `isOccupiedCell` holds exactly for the listed cells |
| GridManager.LoadGrid | frontend/js/gridManager.js:16-27 | a failed fetch reports false and leaves the prior grid unchanged; success is exactly a payload with a cell list, and installs its dimensions, cells and mask; a payload without cells reports false with the grid reset apart from its new dimensions |
| GridManager.GetOriginalCell | frontend/js/gridManager.js:116-130 | the lookup only ever yields `*` or `o`, and yields `*` when there is no mask |
| GridManager.OriginalCellOfRendered | frontend/js/gridManager.js:119-129 | with a rendered figure as mask, the lookup yields `o` exactly where the figure has `o`, and `*` everywhere else, including outside the figure |
| GridManager.GetCellEdges | frontend/js/gridManager.js:83-104 | exactly 12 distinct edges; each joins two corners of the unit cube at (x,y,z) that differ by one step on one axis; every such edge is among them |
| GridManager.EdgesOf | frontend/js/gridManager.js:74-78 | twelve edges per cell, and an edge is listed exactly when it is an edge of one of the cells |
| GridManager.CalculateGridEdges | frontend/js/gridManager.js:71-81 | exactly 12 edges per occupied cell, with no deduplication; every edge of an occupied cell appears, and every listed edge belongs to an occupied cell |
| PieceManager.Round | frontend/js/pieceManager.js:116 | `Math.round`: the integer within a half below and under a half above the value |
| PieceManager.JsRem360 | frontend/js/pieceManager.js:124 | JavaScript `% 360`: the remainder has the sign of the dividend and is below 360 in size; it equals the angle, or the angle minus 360, on the ranges the rotation reaches |
| PieceManager.Empty | frontend/js/pieceManager.js:5-10 | the initial state has nothing placed and nothing selected, and keeps the invariant |
| PieceManager.SelectExistingPiece | frontend/js/pieceManager.js:72-80 | the placed instance becomes the selection; the instance map is unchanged |
| PieceManager.CreateNewPiece | frontend/js/pieceManager.js:82-96 | the new id is placed at (1,1,1) with rotation (0,0,0) and selected; every other instance is untouched; the invariant is kept |
| PieceManager.SelectOrCreatePiece | frontend/js/pieceManager.js:64-70 | the id ends up placed and selected; an id already placed keeps its instance, so no id gets two instances; otherwise it is fresh at the centre |
| PieceManager.SelectOrCreateIdempotent | frontend/js/pieceManager.js:64-70 | choosing the same piece twice equals choosing it once |
| PieceManager.MovePiece | frontend/js/pieceManager.js:111-118 | no-op without a selection; otherwise only the selected instance's coordinate on the axis changes, to the rounded sum, which is exact on an integer position; the invariant is kept |
| PieceManager.MoveThereAndBack | frontend/js/pieceManager.js:111-118 | on a valid state, moving +d then -d on one axis restores the state |
| PieceManager.RotatePiece | frontend/js/pieceManager.js:120-131 | no-op without a selection; otherwise only the selected angle on the axis changes, by +90 or -270, staying in [0, 360); other axes and the position are unchanged |
| PieceManager.RotateFourTimes | frontend/js/pieceManager.js:120-124 | on a valid state four rotations about one axis are the identity |
| PieceManager.RemoveSelectedPiece | frontend/js/pieceManager.js:133-139 | no-op without a selection; otherwise exactly the selected id leaves the map, the rest is unchanged, and the selection is cleared |
| PieceManager.UpdatePiecesPanel | frontend/js/pieceManager.js:141-143 | every instance is removed and the selection cleared, leaving a valid state |
| UiController.KeyAction | frontend/js/uiController.js:58-69 | exactly the ten listed keys have an action, and every move is by one step |
| UiController.HandleKeyDown | frontend/js/uiController.js:54-73 | no selection or an unmapped key changes nothing; otherwise only the selected instance can change or leave; the selection invariant and the state invariant are kept |
| UiController.MoveKey | frontend/js/uiController.js:59-64 | with a selection, a move key performs exactly its move |
| UiController.RotateKey | frontend/js/uiController.js:65-67 | with a selection, a rotation key performs exactly its rotation |
| UiController.RemoveKey | frontend/js/uiController.js:68 | with a selection, `Delete` removes exactly the selected piece |
| UiController.MoveKeysPaired | frontend/js/uiController.js:59-64 | Left/Right, Up/Down and z/x are opposite moves on one axis |
| UiController.OppositeKeysCancel | frontend/js/uiController.js:59-64 | on a valid state, a move key followed by its opposite restores the state |
| UiController.RotationKeyFourTimes | frontend/js/uiController.js:65-67 | on a valid state, pressing a rotation key four times restores the state |
| UiController.MeshCell | frontend/js/uiController.js:187-189 | the cell a mesh lies in is the floor of its world position: each coordinate of the mesh lies in [c, c + 1) of the cell |
| UiController.LastMeshAt | frontend/js/uiController.js:182-195 | the id is absent exactly when no cube floors to the cell; otherwise it is the id of some cube that does |
| UiController.LastMeshAtSnoc | frontend/js/uiController.js:194 | a later cube in the same cell overwrites an earlier one |
| UiController.EmptyTable | frontend/js/uiController.js:176-180 | a width x height x depth table with every entry null |
| UiController.Put | frontend/js/uiController.js:194 | writing an in-bounds cell changes that entry only and keeps the table's shape |
| UiController.Scanned | frontend/js/uiController.js:174-200 | the table has the grid's shape, and each in-bounds entry is the id of the last cube in that cell, or null |
| UiController.ScannedWithinBounds | frontend/js/uiController.js:191-195 | the scanned table has an entry exactly where `isWithinBounds` holds, and that entry is set exactly when some mesh lies in the cell, so meshes out of bounds leave no trace |
| UiController.ScanGridState | frontend/js/uiController.js:174-200 | the loop over the cubes builds exactly the scanned table: out-of-bounds cubes are dropped and later cubes overwrite earlier ones |
| UiController.FillCheck | frontend/js/uiController.js:79-87 | filled exactly when every occupied cell holds a piece; otherwise the first cell that does not hold one is a fault exactly when reading it throws |
| UiController.HoldsInBounds | frontend/js/uiController.js:83 | on a table of the grid's shape, a cell holds a piece exactly when it is in bounds and its entry is set; the read throws exactly outside width and height |
| UiController.CellChar | frontend/js/uiController.js:209-216 | an unoccupied cell encodes as `.`, whatever the table holds; an occupied cell encodes as its piece id, or as a figure mark when the entry is null |
| UiController.CellRow | frontend/js/uiController.js:208-217 | a row has width characters, x fastest |
| UiController.CellLayers | frontend/js/uiController.js:206-219 | depth layers of height rows, z-major then y |
| UiController.EncodeRows | frontend/js/uiController.js:207-219 | n rows take n * (width + 1) characters |
| UiController.EncodeLayers | frontend/js/uiController.js:206-223 | n layers take n * (height * (width + 1) + 1) characters, less the separator after the last layer |
| UiController.ConvertToYassFormat | frontend/js/uiController.js:202-225 | an empty grid encodes as empty text; otherwise the length is depth * height * (width + 1) + depth - 1 |
| UiController.EncodeRowsJoin | frontend/js/uiController.js:207-219 | a layer's rows are the encoded rows joined by `\n`, followed by one `\n` |
| UiController.EncodeBlock | frontend/js/uiController.js:207-219 | a layer's block is its layer text followed by `\n` |
| UiController.EncodeLayersStep | frontend/js/uiController.js:220-222 | each layer appends its block, and one more `\n` unless it is the last |
| UiController.EncodeLayersJoin | frontend/js/uiController.js:206-223 | the first n layers are their texts joined by `\n\n`, then `\n`, then one more `\n` unless n is the depth |
| UiController.EncodeAsRender | frontend/js/uiController.js:202-225 | the encoding is the layered rendering of the encoded cells, plus one trailing `\n` |
| UiController.CheckSolution | frontend/js/uiController.js:75-89 | the board is posted exactly when every occupied cell is in bounds and holds a cube; a crash implies some occupied cell outside width or height; the posted text is the encoding of the scanned table |
| SomaGrid.FromLayers | backend/soma_grid.py:17-27 | an empty layer list fails with the empty-layer error, and only then; otherwise width is the length of the first row of the stripped first layer, height is that layer's row count (at least one) and depth is the layer count |
| SomaGrid.RowCells | backend/soma_grid.py:67-69 | the cells of one row are exactly its `*` and `o` columns |
| SomaGrid.LayerCells | backend/soma_grid.py:66-69 | the cells of one layer are exactly the marked columns of its rows |
| SomaGrid.ParseOccupiedCells | backend/soma_grid.py:61-70 | a cell is occupied exactly when it is marked `*` or `o` in its stripped layer |
| SomaGrid.FromSomaContent | backend/soma_grid.py:50-59 | parsing never fails, because a split always yields a layer; width and height come from the first row and the row count of the first layer, depth is the layer count of the stripped content, and the occupied cells are the marked ones |
| SomaGrid.RenderedLayers | backend/soma_grid.py:53 | a rendered figure strips and splits back into its layer texts, and each layer into its rows |
| SomaGrid.ParseRendered | backend/soma_grid.py:50-70 | parsing a rendered figure gives width, height and depth from its first row, first layer and layer count; the occupied cells are exactly its marked positions; a rectangular figure's occupied cells lie in bounds |
| Validation.CellAccepted | backend/utils.py:72-83 | the three cell rules: a `.` of the figure stays `.`, a figure cell holds a valid label, and a piece stands only on a figure cell; ValidOnRendered shows acceptance is exactly these rules everywhere |
| Validation.RowMatches | backend/utils.py:64-83 | a row pair matches exactly when the lengths agree and every cell rule holds |
| Validation.RowsMatch | backend/utils.py:63-83 | rows match exactly when every row pair does |
| Validation.RowsMatchAccepted | backend/utils.py:63-83 | for rows of the same shape, the row-by-row check holds exactly when every cell rule holds at every position |
| Validation.LayersMatch | backend/utils.py:53-83 | layers match exactly when every layer pair has equal row counts and matching rows |
| Validation.IsValidPlacement | backend/utils.py:30-89 | a missing figure file rejects; otherwise a board is accepted exactly when the stripped layer counts agree and every layer pair matches |
| Validation.IgnoresPadding | backend/utils.py:46 | whitespace around the board never changes the verdict |
| Validation.IgnoresNewline | backend/utils.py:46 | the encoder's trailing newline never changes the verdict |
| Validation.ValidOnRendered | backend/utils.py:44-85 | for a rendered figure and board of the same shape, acceptance is exactly the cell rules at every position |
| Validation.EmptyBoardAccepted | backend/utils.py:76-79 | because `.` is a valid label, a board of `.` in the figure's shape is accepted |
| Validation.FigureRejected | backend/utils.py:77-79 | a figure with any `*` or `o` is not accepted as a board for itself |
| Normalization.SolutionGrid | backend/utils.py:110-114 | the board read as layers of rows has at least one layer, and every layer has at least one row |
| Normalization.RowPoints | backend/utils.py:121-123 | the points of one row are exactly its non-`.` columns, labelled |
| Normalization.LayerPoints | backend/utils.py:120-123 | the points of one layer are exactly its non-`.` cells in the box, labelled |
| Normalization.GridPoints | backend/utils.py:119-123 | the points of the first n layers are exactly their non-`.` cells in the box |
| Normalization.GetPiecePositions | backend/utils.py:116-124 | fails (an `IndexError`) exactly when a layer or row is shorter than the box; otherwise lists exactly the labelled non-`.` cells |
| Normalization.PositionsConsistent | backend/utils.py:116-124 | no two listed points share a position with different labels |
| Normalization.ReadLabelIn | backend/utils.py:110-124 | every listed label occurs in the stripped board |
| Normalization.RotatePoint | backend/utils.py:129-136 | a quarter turn keeps the label and the coordinate on its axis |
| Normalization.RotatePointInjective | backend/utils.py:129-136 | a quarter turn maps distinct positions to distinct positions |
| Normalization.RotatePositions | backend/utils.py:126-137 | the list keeps its length, and each point is turned in place |
| Normalization.RotateFourTimes | backend/utils.py:126-137 | four turns about one axis are the identity |
| Normalization.RotateConsistent | backend/utils.py:126-137 | turning keeps one label per position |
| Normalization.RotNConsistent | backend/utils.py:170-179 | any number of turns keeps one label per position |
| Normalization.OrientConsistent | backend/utils.py:170-179 | each of the 64 orientations keeps one label per position |
| Normalization.OrientPieces | backend/utils.py:170-179 | each orientation keeps every point's label |
| Normalization.MinInt | backend/utils.py:144-146 | `min` over integers: a member that is below every element |
| Normalization.Low | backend/utils.py:144-146 | the per-axis minimum is attained by some point and below all |
| Normalization.LastPieceAt | backend/utils.py:149-154 | a shifted cell is empty exactly when no point lands on it; otherwise it holds the label of one that does |
| Normalization.PositionsToGrid | backend/utils.py:139-156 | a depth x height x width grid whose cell is the label of the last point shifted onto it, or `.`; points shifted outside the box are dropped |
| Normalization.PiecesKept | backend/utils.py:149-154 | when every shifted point fits the box, each point's label is at its shifted cell |
| Normalization.GridChars | backend/utils.py:139-164 | a rendering contains only `.`, `\n` and labels of the points |
| Normalization.Candidate | backend/utils.py:173-174 | an orientation's candidate is `grid_to_string(positions_to_grid(positions))` in the board's box |
| Normalization.Try | backend/utils.py:173-176 | one pass of the innermost loop adds the candidate exactly when it is accepted (and, corrected, when the orientation fits); TryHits states it |
| Normalization.TryHits | backend/utils.py:173-176 | one orientation contributes a rendering exactly when the check accepts it |
| Normalization.SweepX | backend/utils.py:172-177 | k passes of the x loop: try the current orientation, then turn it about x; SweepXFacts states what it collects |
| Normalization.SweepXFacts | backend/utils.py:172-177 | the innermost loop collects exactly the accepted renderings of its four x-turns and ends turned four times |
| Normalization.SweepYFacts | backend/utils.py:171-178 | the middle loop collects exactly the accepted renderings of its y and x turns |
| Normalization.YPassIdentity | backend/utils.py:171-178 | a full middle pass returns the points to where they started |
| Normalization.SweepY | backend/utils.py:171-178 | k passes of the y loop: four x passes, then a turn about y; SweepYFacts states what it collects |
| Normalization.SweepZ | backend/utils.py:170-179 | k passes of the z loop: four y passes, then a turn about z; SweepZFacts states what it collects |
| Normalization.Candidates | backend/utils.py:167-179 | the `rotations` set as the list the 64-orientation loop builds; CandidatesAreOrientations states its contents in both directions |
| Normalization.SweepZFacts | backend/utils.py:170-179 | the outer loop collects exactly the accepted renderings of its z, y and x turns |
| Normalization.CandidatesAreOrientations | backend/utils.py:166-180 | the collected renderings are exactly the accepted renderings of the 64 orientations |
| Normalization.NormalizeWith | backend/utils.py:91-191 | no figure file, a ragged or empty board, or no accepted orientation gives the stripped board; any other result is accepted by the check |
| Normalization.NormalizeAsWritten | backend/utils.py:91-191 | the normaliser as written: no figure file, a ragged or empty board gives the stripped board; otherwise the stripped board or an accepted rendering |
| Normalization.NormalizeFitting | backend/utils.py:91-191 | the corrected normaliser: no figure file, a ragged or empty board gives the stripped board; otherwise the stripped board or an accepted rendering |
| Normalization.NormalizeIsLeast | backend/utils.py:185-187 | when some orientation is accepted, the result is an accepted orientation's rendering and is below every accepted rendering |
| Normalization.NormalizeFromSweep | backend/utils.py:181-187 | a result other than the stripped board is the rendering of an accepted orientation |
| Normalization.FitKeepsAll | backend/utils.py:153-154 | an orientation that fits the box loses no cube |
| Normalization.NormalizeKeepsPieces | backend/utils.py:153-154 | the corrected normal form comes from an orientation that keeps every cube |
| Normalization.NormalFormChars | backend/utils.py:158-187 | a normal form contains only characters of the stripped board, `.` and `\n` |
| Normalization.NormalFormLacks | backend/utils.py:158-187 | a label absent from the board is absent from its normal form |
| Normalization.NormalFormKeepsLabels | backend/utils.py:153-154 | every label of the board appears in its corrected normal form |
| Normalization.KeptLabelShows | backend/utils.py:158-164 | when every cube is kept, each label shows in the rendering |
| Truncation.RotateLine | backend/utils.py:126-137 | a turn maps points on an axis-parallel line to points on an axis-parallel line |
| Truncation.OrientLine | backend/utils.py:170-179 | every orientation of a straight bar is a straight bar with the same labels |
| Truncation.OriginTaken | backend/utils.py:143-154 | after the shift, some cube of a straight bar lands on the origin |
| Truncation.CandidateAbove | backend/utils.py:139-164 | on a 3x1x1 box, a bar whose labels are all at least m renders no lower than m followed by two `.` |
| Truncation.BarRead | backend/utils.py:110-124 | a one-row board of three labels reads as a bar along x |
| Truncation.FigureAccepts | backend/utils.py:30-85 | against the figure `***`, any three valid labels are accepted |
| Truncation.StoodUp | backend/utils.py:170-179 | one y-turn stands the bar along z, below the origin |
| Truncation.TruncatedHit | backend/utils.py:153-154 | the standing bar renders as its last label followed by two `.`, and the as-written sweep accepts that rendering |
| Truncation.AsWrittenTruncates | backend/utils.py:139-187 | as written, a bar whose last label is least normalises to that label followed by two `.` |
| Truncation.BarAbove | backend/utils.py:139-164 | no orientation of such a bar renders below that truncated form |
| Truncation.BarTruncates | backend/utils.py:139-187 | such a bar is accepted, and as written it loses two cubes in normalisation |
| Truncation.AsWrittenCollides | backend/utils.py:153-154 | as written, the different accepted boards `tlc` and `tnc` both normalise to `c..` |
| Truncation.CorrectedSeparates | backend/utils.py:153-154 | with the correction, `tlc` and `tnc` have different normal forms |
| Truncation.BarKeepsMiddle | backend/utils.py:153-154 | with the correction, a bar's middle label survives normalisation |
| Truncation.BarLacks | backend/utils.py:158-187 | a label not on the bar never appears in its normal form |
| Truncation.RowLacks | backend/utils.py:158-187 | a label not in a one-row board never appears in its normal form |
| Solutions.Store | backend/utils.py:203-209 | the known set grows by the normal form exactly when it is unknown and the call is not check-only, and is otherwise unchanged |
| Solutions.HandleWith | backend/utils.py:193-214 | a rejected board answers (false, false, none, 0) and stores nothing; an accepted one answers its normal form, is new exactly when that form is unknown, and counts the store afterwards |
| Solutions.HandleFitting | backend/utils.py:193-214 | `handle_solution` with the corrected normaliser: valid exactly when the check accepts; a rejected board leaves the store alone; an accepted one reports its corrected normal form, is new exactly when that form is not yet known, and the store and count are updated unless the call only checks |
| Solutions.HandleAsWritten | backend/utils.py:193-214 | `handle_solution` with the normaliser as written: valid exactly when the check accepts; a rejected board leaves the store alone; an accepted one reports its as-written normal form, is new exactly when that form is not yet known, and the store and count are updated unless the call only checks |
| Solutions.ResubmitIsKnown | backend/utils.py:201-211 | submitting an accepted board again is not new and changes neither the store nor the count |
| Solutions.SameNormalFormKnown | backend/utils.py:201-211 | a second board with the same normal form is reported known |
| Solutions.StoreTwo | backend/utils.py:205-206 | two different unknown forms stored in turn are both kept, and the count grows by two |
| Solutions.DifferentNormalFormNew | backend/utils.py:201-211 | a board whose normal form differs from the first and is unknown is reported new, and the count is two more than before |
| Solutions.AsWrittenMissesSecond | backend/utils.py:201-211 | as written, `tnc` is reported known after `tlc` is stored |
| Solutions.CorrectedCountsSecond | backend/utils.py:201-211 | with the correction, `tnc` is new after `tlc`, and the count is 2 |
| Pipeline.LoadServed | frontend/js/gridManager.js:57-63 | loading the parse of a rendered figure succeeds, and the grid's dimensions, mask and occupied cells agree with the figure |
| Pipeline.EncodedChar | frontend/js/uiController.js:209-216 | on a loaded figure, a `.` position encodes as `.`, and a marked position as its piece id, or as its own mark when empty |
| Pipeline.EncodedCells | frontend/js/uiController.js:206-219 | the encoded cells have the figure's shape, each as the encoder computes it |
| Pipeline.EmptyLayers | frontend/js/uiController.js:209-216 | with an all-null table, the encoded cells are the figure itself |
| Pipeline.StripNewline | backend/utils.py:46 | stripping a rendered figure with a trailing newline gives the rendering |
| Pipeline.EmptyBoardRoundTrip | frontend/js/uiController.js:202-225 | on a loaded figure, encoding an all-null table and stripping reproduces the figure text |
| Pipeline.ParseLoadEncode | backend/soma_grid.py:61-70 | parse, load, then encode an empty board: the stripped result is the figure text |
| Pipeline.PieceThere | frontend/js/uiController.js:79-87 | when the board is posted, every occupied cell is in bounds and its entry is the id of some cube |
| Pipeline.CellFromTable | frontend/js/uiController.js:211-213 | when every marked figure position's entry holds a valid label, each figure position encodes to a non-space character that the cell rules accept |
| Pipeline.SubmittedCell | frontend/js/uiController.js:79-89 | a posted board encodes every figure position to a character the cell rules accept |
| Pipeline.SubmittedCells | frontend/js/uiController.js:79-89 | a posted board's encoded cells have the figure's shape and satisfy the cell rules everywhere |
| Pipeline.AcceptedEncoding | backend/utils.py:44-85 | an encoding whose cells satisfy the cell rules against the figure is accepted by the check |
| Pipeline.SubmittedBoardAccepted | frontend/js/uiController.js:75-89 | with valid piece ids, every board the front end posts for a loaded figure is accepted by the back end |

## Left out

- Rendering is not modelled: the THREE.js scene, meshes, materials, opacity and panel highlighting, the wireframe line objects built in `createGrid`, and frontend/js/renderer.js and main.js. Only the state they are built from is modelled.
- HTTP and file access are parameters: `fetchGridData`, the `checkSolution` POST and its reply, the solution-count fetches, `load_solutions` and the JSON write, `from_soma_file`, `to_dict`, `get_solution_count` and `get_available_shapes`. The figure text, the known set and the fetched payload come in as values, and the set to save goes out in the result.
- backend/app.py is not part of this model: the Flask routes and the call to the external `yass` solver binary are I/O and a foreign program.
- `showMessage`, `updateSolutionCounts`, the shape selector and UI initialisation in uiController.js are not modelled, because they are DOM output.
- World positions are not computed from group transforms. The scan takes each cube's world position as given (a `real` triple), because `getWorldPosition` is floating-point matrix work. The Euler rotation handed to the renderer (pieceManager.js:126-130) is likewise left out.
- The piece catalogue in constants.js is not part of this model. Piece ids are single characters, as in the back end's `VALID_PIECES`, and the mesh a new piece gets is not modelled.
- Logging is left out, and so is `preventDefault` on arrow keys, because neither changes state.
- Python's exception handlers are modelled by what they return. A ragged board is modelled as `None` from `GetPiecePositions`, a board without cubes by the empty-list case, and both fall back to the stripped board. A failing file read is not modelled separately from a missing file.
- Floating point is modelled only where the program rounds. Positions are `real`, with `Math.round` as floor(v + 0.5). JavaScript number overflow is not modelled.
- Text.IsSpace lists the characters Python's `str.strip` removes by default, ASCII and Unicode whitespace, as a fixed set.
- PieceManager.MovePiece, PieceManager.RotatePiece, PieceManager.RemoveSelectedPiece and UiController.HandleKeyDown require `Selectable`, that any selection is a placed instance. In the program the selection is the instance object itself, so it cannot dangle; here it is an id, and the requirement restates that the object exists. Every state the operations produce keeps it.
- PieceManager.RotatePiece states the quarter-turn step only for angles already in [0, 360), which every reachable state has; the JavaScript remainder for other angles is stated by PieceManager.JsRem360.
- GridManager.GetOriginalCell states the range of the lookup and the no-mask case in its own contract. Its reading of an arbitrary mask is stated only for rendered masks, by GridManager.OriginalCellOfRendered.
- `from_soma_content` checks for an empty layer list, but splitting always yields at least one layer, so that error can never occur. SomaGrid.FromSomaContent therefore always succeeds.
- `loadGrid` resets the state only after the fetch succeeds. A payload without `occupied_cells` makes `updateGridState` throw after the dimensions are assigned, so the call reports failure with a reset grid that carries the new dimensions. GridManager.LoadGrid models this as written.
- `calculateGridEdges` collects into a `Set` of freshly built arrays, so shared edges are not deduplicated: twelve edges per occupied cell.
- The front end's fill check (uiController.js:79-87) throws a `TypeError` when an occupied cell lies outside the table's width or height, and treats a cell beyond the depth as unfilled. UiController.FillCheck models both.
- The validator accepts `.` on a figure cell, because `.` is in `VALID_PIECES`. An unfilled board therefore passes the back end's check (Validation.EmptyBoardAccepted); only the front end's fill check demands a full board.

## Findings

| source | as written | input that shows it | evidently intended | confidence | as-written member | corrected member |
|---|---|---|---|---|---|---|
| backend/utils.py:139-187 | `positions_to_grid` renders every orientation into the board's own width x height x depth box and silently drops cubes that fall outside it (lines 153-154). The rendering can still pass `is_valid_placement`, because `.` is a valid label on figure cells, and it becomes a candidate for the minimum. The normal form can therefore lose cubes, and different solutions can share one normal form. | figure `***`, boards `tlc` and `tnc`: the y-turn stands the bar along z, only one cube stays in the 3x1x1 box, and both boards normalise to `c..`, so `tnc` is reported as already known after `tlc` is stored | only orientations whose cubes all fit the box are candidates, so the normal form keeps every cube and distinct boards such as `tlc` and `tnc` stay distinct | not executed | Truncation.AsWrittenCollides, Solutions.AsWrittenMissesSecond | Normalization.NormalizeFitting, Truncation.CorrectedSeparates, Solutions.CorrectedCountsSecond |
