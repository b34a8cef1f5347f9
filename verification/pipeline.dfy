/** Properties that span the two ends: the back end parses a `.soma`
    figure (backend/soma_grid.py) and serves its dimensions, its occupied
    cells and its text; the front end loads them as its grid and mask
    (frontend/js/gridManager.js) and encodes the board it sends back for
    checking (frontend/js/uiController.js). */
module Pipeline {
  import opened Common
  import opened Text
  import opened Layout
  import opened Lattice
  import opened Validation
  import SomaGrid
  import GridManager
  import UiController

  /** A figure as the `.soma` files hold it: solid, every layer with the
      rows of the first and every row as wide as the first, and every cell
      `*`, `o` or `.`. */
  predicate Mask(layers: seq<seq<string>>) {
    && Solid(layers)
    && Rectangular(layers, |layers[0][0]|, |layers[0]|)
    && forall z, y, x :: 0 <= z < |layers| && 0 <= y < |layers[z]| && 0 <= x < |layers[z][y]| ==>
         layers[z][y][x] == '.' || layers[z][y][x] in CellMarks
  }

  /** The cell is a position of the figure. */
  predicate InFigure(layers: seq<seq<string>>, c: Cell) {
    0 <= c.z < |layers| && 0 <= c.y < |layers[c.z]| && 0 <= c.x < |layers[c.z][c.y]|
  }

  /** What `SomaGrid.to_dict` serves for the figure: the parsed dimensions,
      the occupied cells listed in `cells` (in whatever order the set is
      listed), and the stripped text. */
  function Served(layers: seq<seq<string>>, cells: seq<Cell>): GridManager.Payload {
    var parsed := SomaGrid.FromSomaContent(Render(layers)).value;
    GridManager.Payload(parsed.dims, Some(cells), Some(Strip(Render(layers))))
  }

  /** A front-end grid that holds the figure: its dimensions and mask, and
      at every position of the figure an occupied cell exactly where the
      figure has `*` or `o`. */
  ghost predicate Holds(g: GridManager.Grid, layers: seq<seq<string>>) {
    && Mask(layers)
    && g.dims == Dims(|layers[0][0]|, |layers[0]|, |layers|)
    && g.mask == Some(Render(layers))
    && forall c :: InFigure(layers, c) ==> (c in g.occupied <==> layers[c.z][c.y][c.x] in CellMarks)
  }

  /** Loading what the back end serves for a figure gives a grid that holds
      the figure. */
  lemma LoadServed(prior: GridManager.Grid, layers: seq<seq<string>>, cells: seq<Cell>)
    requires Mask(layers)
    requires forall c :: c in cells <==> c in SomaGrid.FromSomaContent(Render(layers)).value.occupied
    ensures GridManager.LoadGrid(prior, Some(Served(layers, cells))).ok
    ensures Holds(GridManager.LoadGrid(prior, Some(Served(layers, cells))).grid, layers)
  {
    var parsed := SomaGrid.FromSomaContent(Render(layers)).value;
    var g := GridManager.LoadGrid(prior, Some(Served(layers, cells))).grid;
    SomaGrid.ParseRendered(layers);
    RenderSplits(layers);
    assert g == GridManager.UpdateGridState(parsed.dims, cells, Some(Render(layers)));
    forall c | InFigure(layers, c) ensures c in g.occupied <==> layers[c.z][c.y][c.x] in CellMarks {
      assert c in g.occupied <==> c in parsed.occupied;
    }
  }

  /** The character the front end encodes at a position of the figure: `.`
      outside it, the piece where the table holds one, and otherwise the
      figure's own mark. */
  lemma EncodedChar(g: GridManager.Grid, layers: seq<seq<string>>, t: UiController.Table, c: Cell)
    requires Holds(g, layers) && UiController.Shaped(t, g.dims) && InFigure(layers, c)
    ensures UiController.CellChar(g, t, c.x, c.y, c.z) ==
      if layers[c.z][c.y][c.x] !in CellMarks then '.'
      else match t[c.x][c.y][c.z] case Some(id) => id case None => layers[c.z][c.y][c.x]
  {
    assert Cell(c.x, c.y, c.z) == c;
    if layers[c.z][c.y][c.x] in CellMarks {
      GridManager.OriginalCellOfRendered(g, layers, c.x, c.y, c.z);
    }
  }

  /** The encoded board, read as layers, has the figure's shape, and each
      of its cells is the one `EncodedChar` describes. */
  lemma EncodedCells(g: GridManager.Grid, layers: seq<seq<string>>, t: UiController.Table)
    requires Holds(g, layers) && UiController.Shaped(t, g.dims)
    ensures var e := UiController.CellLayers(g, t);
      && SameShape(layers, e)
      && forall c :: InFigure(layers, c) ==>
           e[c.z][c.y][c.x] == UiController.CellChar(g, t, c.x, c.y, c.z)
  {
    var e := UiController.CellLayers(g, t);
    forall z, y | 0 <= z < |layers| && 0 <= y < |layers[z]| ensures e[z][y] == UiController.CellRow(g, t, y, z) {
    }
  }

  /** The front end's encoding of a loaded figure, with no piece placed, is
      the figure again once the trailing newline the encoder adds is
      stripped. */
  lemma EmptyBoardRoundTrip(g: GridManager.Grid, layers: seq<seq<string>>)
    requires Holds(g, layers)
    ensures Strip(UiController.ConvertToYassFormat(g, UiController.EmptyTable(g.dims))) == Render(layers)
  {
    var t := UiController.EmptyTable(g.dims);
    EmptyLayers(g, layers);
    UiController.EncodeAsRender(g, t);
    StripNewline(layers);
  }

  /** With no piece placed, the encoded board is the figure. */
  lemma EmptyLayers(g: GridManager.Grid, layers: seq<seq<string>>)
    requires Holds(g, layers)
    ensures UiController.CellLayers(g, UiController.EmptyTable(g.dims)) == layers
  {
    var t := UiController.EmptyTable(g.dims);
    EncodedCells(g, layers, t);
    var e := UiController.CellLayers(g, t);
    forall z | 0 <= z < |layers| ensures e[z] == layers[z] {
      forall y | 0 <= y < |layers[z]| ensures e[z][y] == layers[z][y] {
        forall x | 0 <= x < |layers[z][y]| ensures e[z][y][x] == layers[z][y][x] {
          EncodedChar(g, layers, t, Cell(x, y, z));
          assert InFigure(layers, Cell(x, y, z));
        }
      }
    }
  }

  lemma StripNewline(layers: seq<seq<string>>)
    requires Solid(layers)
    ensures Strip(Render(layers) + "\n") == Render(layers)
  {
    RenderSplits(layers);
    StripDropsNewline(Render(layers));
  }

  /** The figure parsed by the back end, loaded by the front end and
      encoded with no piece placed comes back as the figure's text. */
  lemma ParseLoadEncode(prior: GridManager.Grid, layers: seq<seq<string>>, cells: seq<Cell>)
    requires Mask(layers)
    requires forall c :: c in cells <==> c in SomaGrid.FromSomaContent(Render(layers)).value.occupied
    ensures var g := GridManager.LoadGrid(prior, Some(Served(layers, cells))).grid;
      Strip(UiController.ConvertToYassFormat(g, UiController.EmptyTable(g.dims))) == Render(layers)
  {
    LoadServed(prior, layers, cells);
    EmptyBoardRoundTrip(GridManager.LoadGrid(prior, Some(Served(layers, cells))).grid, layers);
  }

  /** A board the front end submits passes the back end's placement check
      against the figure it was loaded from, whenever the piece ids are
      labels the check accepts: every cell of the figure holds a piece and
      every other cell is `.`. */
  lemma SubmittedBoardAccepted(g: GridManager.Grid, layers: seq<seq<string>>, meshes: seq<UiController.CubeMesh>)
    requires Holds(g, layers)
    requires forall i :: 0 <= i < |meshes| ==> meshes[i].pieceId in ValidPieces
    requires UiController.CheckSolution(g, meshes).Submit?
    ensures IsValidPlacement(UiController.CheckSolution(g, meshes).gridState, Some(Render(layers)))
  {
    var t: UiController.Table := UiController.Scanned(g.dims, meshes);
    SubmittedCells(g, layers, meshes);
    AcceptedEncoding(g, t, layers);
  }

  /** The submitted board, read as layers, is solid, has the figure's shape
      and meets every cell rule. */
  lemma SubmittedCells(g: GridManager.Grid, layers: seq<seq<string>>, meshes: seq<UiController.CubeMesh>)
    requires Holds(g, layers)
    requires forall i :: 0 <= i < |meshes| ==> meshes[i].pieceId in ValidPieces
    requires UiController.CheckSolution(g, meshes).Submit?
    ensures var e := UiController.CellLayers(g, UiController.Scanned(g.dims, meshes));
      Solid(e) && SameShape(layers, e) && AllCellsAccepted(layers, e)
  {
    var t: UiController.Table := UiController.Scanned(g.dims, meshes);
    EncodedCells(g, layers, t);
    var e := UiController.CellLayers(g, t);
    forall z, y | 0 <= z < |e| && 0 <= y < |e[z]| ensures SolidRow(e[z][y]) {
      forall x | 0 <= x < |e[z][y]| ensures !IsSpace(e[z][y][x]) {
        SubmittedCell(g, layers, meshes, Cell(x, y, z));
      }
    }
    forall z, y, x | 0 <= z < |layers| && 0 <= y < |layers[z]| && 0 <= x < |layers[z][y]|
      ensures CellAccepted(layers[z][y][x], e[z][y][x])
    {
      SubmittedCell(g, layers, meshes, Cell(x, y, z));
    }
  }

  /** One cell of the submitted board: a label or a mark, never
      whitespace, and accepted by the cell rules. */
  lemma SubmittedCell(g: GridManager.Grid, layers: seq<seq<string>>, meshes: seq<UiController.CubeMesh>, c: Cell)
    requires Holds(g, layers) && InFigure(layers, c)
    requires forall i :: 0 <= i < |meshes| ==> meshes[i].pieceId in ValidPieces
    requires UiController.CheckSolution(g, meshes).Submit?
    ensures var ch := UiController.CellChar(g, UiController.Scanned(g.dims, meshes), c.x, c.y, c.z);
      !IsSpace(ch) && CellAccepted(layers[c.z][c.y][c.x], ch)
  {
    var t: UiController.Table := UiController.Scanned(g.dims, meshes);
    if layers[c.z][c.y][c.x] in CellMarks {
      PieceThere(g, meshes, c);
    }
    CellFromTable(g, layers, t, c);
  }

  /** A cell whose table entry, wherever the figure has a mark, is a valid
      label is encoded as a character the cell rules accept. */
  lemma CellFromTable(g: GridManager.Grid, layers: seq<seq<string>>, t: UiController.Table, c: Cell)
    requires Holds(g, layers) && UiController.Shaped(t, g.dims) && InFigure(layers, c)
    requires layers[c.z][c.y][c.x] in CellMarks ==> t[c.x][c.y][c.z].Some? && t[c.x][c.y][c.z].value in ValidPieces
    ensures var ch := UiController.CellChar(g, t, c.x, c.y, c.z);
      !IsSpace(ch) && CellAccepted(layers[c.z][c.y][c.x], ch)
  {
    EncodedChar(g, layers, t, c);
  }

  /** An encoded board that is solid, has the figure's shape and meets the
      cell rules is accepted as it is sent, trailing newline included. */
  lemma AcceptedEncoding(g: GridManager.Grid, t: UiController.Table, layers: seq<seq<string>>)
    requires UiController.Shaped(t, g.dims) && g.dims.depth >= 1 && g.dims.height >= 1
    requires Solid(layers)
    requires var e := UiController.CellLayers(g, t); Solid(e) && SameShape(layers, e) && AllCellsAccepted(layers, e)
    ensures IsValidPlacement(UiController.ConvertToYassFormat(g, t), Some(Render(layers)))
  {
    var e := UiController.CellLayers(g, t);
    ValidOnRendered(layers, e);
    UiController.EncodeAsRender(g, t);
    IgnoresNewline(Render(e), Some(Render(layers)));
  }

  /** On a submitted board every occupied cell holds the piece of a mesh
      in it. */
  lemma PieceThere(g: GridManager.Grid, meshes: seq<UiController.CubeMesh>, c: Cell)
    requires UiController.CheckSolution(g, meshes).Submit? && c in g.occupied
    ensures Contains(g.dims, c)
    ensures UiController.Scanned(g.dims, meshes)[c.x][c.y][c.z].Some?
    ensures exists i :: 0 <= i < |meshes| && UiController.Scanned(g.dims, meshes)[c.x][c.y][c.z].value == meshes[i].pieceId
  {
    var k :| 0 <= k < |g.occupied| && g.occupied[k] == c;
    var r := UiController.LastMeshAt(meshes, c);
    assert r.Some?;
    var j :| 0 <= j < |meshes| && UiController.MeshCell(meshes[j]) == c && meshes[j].pieceId == r.value;
    assert UiController.Scanned(g.dims, meshes)[c.x][c.y][c.z] == UiController.LastMeshAt(meshes, Cell(c.x, c.y, c.z));
  }
}
