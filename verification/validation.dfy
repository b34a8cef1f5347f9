/** The back end's placement check, `is_valid_placement` in
    backend/utils.py: a submitted board must have the layers, rows and row
    lengths of the figure, and cell by cell a piece may only stand where the
    figure has a cell. */
module Validation {
  import opened Common
  import opened Text
  import opened Layout

  /** `VALID_PIECES`: the piece labels the back end accepts, and `.`. */
  const ValidPieces: set<char> := {'3', 'l', 't', 'z', 'p', 'n', 'c', '.'}

  /** `VALID_GRID_SPACES`: the figure's cell marks. */
  const ValidGridSpaces: set<char> := CellMarks

  /** The three cell rules: a `.` of the figure must stay `.`; a cell of the
      figure must hold a valid label (a piece or `.`); a piece may only stand
      on a cell of the figure. */
  predicate CellAccepted(original: char, grid: char) {
    && !(original == '.' && grid != '.')
    && !(original in ValidGridSpaces && grid !in ValidPieces)
    && !(grid in ValidPieces && grid != '.' && original !in ValidGridSpaces)
  }

  /** The innermost loop: equal length, then every cell accepted, scanning
      from the left and stopping at the first rejection. */
  function RowMatches(original: string, grid: string): (ok: bool)
    ensures ok <==> |original| == |grid| && forall k :: 0 <= k < |original| ==> CellAccepted(original[k], grid[k])
    decreases |original|
  {
    if |original| != |grid| then false
    else if |original| == 0 then true
    else if !CellAccepted(original[0], grid[0]) then false
    else
      assert forall k :: 1 <= k < |original| ==> original[k] == original[1..][k - 1] && grid[k] == grid[1..][k - 1];
      RowMatches(original[1..], grid[1..])
  }

  /** Row by row over two row lists of equal length. */
  function RowsMatch(original: seq<string>, grid: seq<string>): (ok: bool)
    requires |original| == |grid|
    ensures ok <==> forall j :: 0 <= j < |original| ==> RowMatches(original[j], grid[j])
    decreases |original|
  {
    if |original| == 0 then true
    else if !RowMatches(original[0], grid[0]) then false
    else
      assert forall j :: 1 <= j < |original| ==> original[j] == original[1..][j - 1] && grid[j] == grid[1..][j - 1];
      RowsMatch(original[1..], grid[1..])
  }

  /** The middle check for one pair of layers: equal row counts, then every
      row pair. */
  predicate LayerMatches(original: string, grid: string) {
    var o := LayerRows(original);
    var g := LayerRows(grid);
    |o| == |g| && RowsMatch(o, g)
  }

  /** Whether each pair of layers matches, in order. */
  function Verdicts(original: seq<string>, grid: seq<string>): (v: seq<bool>)
    requires |original| == |grid|
    ensures |v| == |original|
    ensures forall i :: 0 <= i < |v| ==> v[i] == LayerMatches(original[i], grid[i])
  {
    seq(|original|, i requires 0 <= i < |original| => LayerMatches(original[i], grid[i]))
  }

  /** The verdicts from `k` on, stopping at the first failure. */
  function AllFrom(v: seq<bool>, k: nat): (ok: bool)
    requires k <= |v|
    ensures ok <==> forall i :: k <= i < |v| ==> v[i]
    decreases |v| - k
  {
    if k == |v| then true
    else if !v[k] then false
    else AllFrom(v, k + 1)
  }

  /** Layer by layer over two layer lists of equal length, from the first
      pair on, stopping at the first pair that does not match. */
  function LayersMatch(original: seq<string>, grid: seq<string>): (ok: bool)
    requires |original| == |grid|
    ensures ok <==> forall i :: 0 <= i < |original| ==> LayerMatches(original[i], grid[i])
  {
    AllFrom(Verdicts(original, grid), 0)
  }

  /** `is_valid_placement`. `shapeFile` is the figure file's content, `None`
      when the file does not exist; a missing file rejects every board. The
      figure is stripped and split into layers, the board likewise, and the
      two must agree in layer count before the layers are compared. */
  function IsValidPlacement(gridState: string, shapeFile: Option<string>): (ok: bool)
    ensures shapeFile.None? ==> !ok
    ensures shapeFile.Some? ==>
      var o := Split(Strip(shapeFile.value), "\n\n");
      var g := Split(Strip(gridState), "\n\n");
      (ok <==> |o| == |g| && forall i :: 0 <= i < |o| ==> LayerMatches(o[i], g[i]))
  {
    match shapeFile
    case None => false
    case Some(content) =>
      var o := Split(Strip(content), "\n\n");
      var g := Split(Strip(gridState), "\n\n");
      if |o| != |g| then false else LayersMatch(o, g)
  }

  /** Whitespace around the board never changes the verdict; in particular
      the newline the front end's encoder ends with is ignored. */
  lemma IgnoresPadding(a: string, gridState: string, b: string, shapeFile: Option<string>)
    requires AllSpace(a) && AllSpace(b)
    ensures IsValidPlacement(a + gridState + b, shapeFile) == IsValidPlacement(gridState, shapeFile)
  {
    StripIgnoresPadding(a, gridState, b);
  }

  /** In particular the newline the front end's encoder ends with. */
  lemma IgnoresNewline(gridState: string, shapeFile: Option<string>)
    ensures IsValidPlacement(gridState + "\n", shapeFile) == IsValidPlacement(gridState, shapeFile)
  {
    StripDropsNewline(gridState);
  }

  /** Two layer lists of the same shape: as many layers, as many rows per
      layer, and rows of the same length. */
  predicate SameShape(original: seq<seq<string>>, grid: seq<seq<string>>) {
    && |original| == |grid|
    && (forall z :: 0 <= z < |original| ==> |original[z]| == |grid[z]|)
    && (forall z, y :: 0 <= z < |original| && 0 <= y < |original[z]| ==> |original[z][y]| == |grid[z][y]|)
  }

  /** Every cell rule holds at every position of two same-shaped figures. */
  predicate AllCellsAccepted(original: seq<seq<string>>, grid: seq<seq<string>>)
    requires SameShape(original, grid)
  {
    forall z, y, x :: 0 <= z < |original| && 0 <= y < |original[z]| && 0 <= x < |original[z][y]| ==>
      CellAccepted(original[z][y][x], grid[z][y][x])
  }

  /** Every cell rule holds in two row lists of the same shape. */
  predicate RowsAccepted(original: seq<string>, grid: seq<string>)
    requires |original| == |grid|
    requires forall y :: 0 <= y < |original| ==> |original[y]| == |grid[y]|
  {
    forall y, x :: 0 <= y < |original| && 0 <= x < |original[y]| ==> CellAccepted(original[y][x], grid[y][x])
  }

  /** For rows of the same shape, the row-by-row check is exactly the cell
      rules at every position. */
  lemma RowsMatchAccepted(original: seq<string>, grid: seq<string>)
    requires |original| == |grid|
    requires forall y :: 0 <= y < |original| ==> |original[y]| == |grid[y]|
    ensures RowsMatch(original, grid) <==> RowsAccepted(original, grid)
  {
  }

  /** One layer of a rendered figure against the same layer of a rendered
      board: the layer check is the cell rules across the layer. */
  lemma LayerOnRendered(original: seq<seq<string>>, grid: seq<seq<string>>, i: nat)
    requires Solid(original) && Solid(grid) && SameShape(original, grid) && i < |original|
    ensures LayerMatches(LayerTexts(original)[i], LayerTexts(grid)[i]) <==> RowsAccepted(original[i], grid[i])
  {
    RenderedRows(original, i);
    RenderedRows(grid, i);
    RowsMatchAccepted(original[i], grid[i]);
  }

  /** Layer verdicts that agree with the cell rules layer by layer agree
      with them over the whole figure. */
  lemma CellsByLayer(original: seq<seq<string>>, grid: seq<seq<string>>, o: seq<string>, g: seq<string>)
    requires SameShape(original, grid) && |o| == |original| && |g| == |grid|
    requires forall i :: 0 <= i < |o| ==> (LayerMatches(o[i], g[i]) <==> RowsAccepted(original[i], grid[i]))
    ensures (forall i :: 0 <= i < |o| ==> LayerMatches(o[i], g[i])) <==> AllCellsAccepted(original, grid)
  {
  }

  /** A board and a figure that split into layers agreeing with the cell
      rules layer by layer: the check is the cell rules everywhere. */
  lemma PlacementByLayers(board: string, figure: string, original: seq<seq<string>>, grid: seq<seq<string>>, o: seq<string>, g: seq<string>)
    requires SameShape(original, grid)
    requires Split(Strip(figure), "\n\n") == o && Split(Strip(board), "\n\n") == g
    requires |o| == |original| && |g| == |grid|
    requires forall i :: 0 <= i < |o| ==> (LayerMatches(o[i], g[i]) <==> RowsAccepted(original[i], grid[i]))
    ensures IsValidPlacement(board, Some(figure)) <==> AllCellsAccepted(original, grid)
  {
    CellsByLayer(original, grid, o, g);
  }

  /** For a rendered figure and a rendered board of the same shape the check
      is exactly the cell rules at every position. */
  lemma ValidOnRendered(original: seq<seq<string>>, grid: seq<seq<string>>)
    requires Solid(original) && Solid(grid) && SameShape(original, grid)
    ensures IsValidPlacement(Render(grid), Some(Render(original))) <==> AllCellsAccepted(original, grid)
  {
    var o := LayerTexts(original);
    var g := LayerTexts(grid);
    assert Split(Strip(Render(original)), "\n\n") == o by { RenderSplits(original); }
    assert Split(Strip(Render(grid)), "\n\n") == g by { RenderSplits(grid); }
    assert forall i :: 0 <= i < |o| ==> (LayerMatches(o[i], g[i]) <==> RowsAccepted(original[i], grid[i])) by {
      forall i | 0 <= i < |o|
        ensures LayerMatches(o[i], g[i]) <==> RowsAccepted(original[i], grid[i])
      {
        LayerOnRendered(original, grid, i);
      }
    }
    PlacementByLayers(Render(grid), Render(original), original, grid, o, g);
  }

  /** A figure read with every cell mark replaced by `.`. */
  function Cleared(original: seq<seq<string>>): (grid: seq<seq<string>>)
    ensures SameShape(original, grid)
    ensures forall z, y, x :: 0 <= z < |grid| && 0 <= y < |grid[z]| && 0 <= x < |grid[z][y]| ==> grid[z][y][x] == '.'
  {
    seq(|original|, z requires 0 <= z < |original| =>
      seq(|original[z]|, y requires 0 <= y < |original[z]| =>
        seq(|original[z][y]|, x => '.')))
  }

  /** `.` is one of the valid labels, so a board left empty where the
      figure has cells, and `.` elsewhere, passes the check: the check alone
      does not demand that the figure be filled. */
  lemma EmptyBoardAccepted(original: seq<seq<string>>)
    requires Solid(original)
    requires forall z, y, x :: 0 <= z < |original| && 0 <= y < |original[z]| && 0 <= x < |original[z][y]| ==>
      original[z][y][x] == '.' || original[z][y][x] in CellMarks
    ensures IsValidPlacement(Render(Cleared(original)), Some(Render(original)))
  {
    var grid := Cleared(original);
    forall z, y | 0 <= z < |grid| && 0 <= y < |grid[z]| ensures SolidRow(grid[z][y]) {
      assert |grid[z][y]| == |original[z][y]| > 0;
      assert forall x :: 0 <= x < |grid[z][y]| ==> grid[z][y][x] == '.';
    }
    ValidOnRendered(original, grid);
  }

  /** The figure itself is not an accepted board: `*` and `o` are not valid
      labels, so a rendering with any cell mark is rejected. */
  lemma FigureRejected(original: seq<seq<string>>, z: nat, y: nat, x: nat)
    requires Solid(original)
    requires z < |original| && y < |original[z]| && x < |original[z][y]| && original[z][y][x] in CellMarks
    ensures !IsValidPlacement(Render(original), Some(Render(original)))
  {
    assert !AllCellsAccepted(original, original) by {
      assert !CellAccepted(original[z][y][x], original[z][y][x]);
    }
    ValidOnRendered(original, original);
  }
}
