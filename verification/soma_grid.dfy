/** The back end's reading of a `.soma` figure (backend/soma_grid.py): the
    text is stripped and split into layers on blank lines, each layer is
    stripped and split into rows, and a cell is occupied when its character
    is `*` or `o`. */
module SomaGrid {
  import opened Common
  import opened Text
  import opened Layout
  import opened Lattice

  datatype ParseError = EmptyLayerData | EmptySomaContent

  /** A parsed figure: its bounding dimensions and its occupied cells. */
  datatype Grid = Grid(dims: Dims, occupied: set<Cell>)

  /** `GridDimensions.from_layers`: width from the first row of the first
      layer, height from the first layer's row count, depth from the layer
      count; an empty list raises. */
  function FromLayers(layers: seq<string>): (r: Result<Dims, ParseError>)
    ensures r.Failure? <==> |layers| == 0
    ensures r.Failure? ==> r.error == EmptyLayerData
    ensures r.Success? ==> r.value.depth == |layers| && r.value.height >= 1
    ensures r.Success? ==> r.value.width == |LayerRows(layers[0])[0]|
    ensures r.Success? ==> r.value.height == |LayerRows(layers[0])|
  {
    if |layers| == 0 then Failure(EmptyLayerData)
    else
      var firstLayer := LayerRows(layers[0]);
      Success(Dims(|firstLayer[0]|, |firstLayer|, |layers|))
  }

  /** Cell `(x, y, z)` of the layers is marked: it exists in row `y` of
      stripped layer `z` and holds `*` or `o`. */
  predicate Marked(layers: seq<string>, c: Cell) {
    && 0 <= c.z < |layers|
    && 0 <= c.y < |LayerRows(layers[c.z])|
    && 0 <= c.x < |LayerRows(layers[c.z])[c.y]|
    && LayerRows(layers[c.z])[c.y][c.x] in CellMarks
  }

  /** The innermost loop of `_parse_occupied_cells`, over the characters of
      one row. */
  function RowCells(row: string, y: int, z: int): (r: set<Cell>)
    ensures forall c :: c in r <==>
      c.y == y && c.z == z && 0 <= c.x < |row| && row[c.x] in CellMarks
    decreases |row|
  {
    if |row| == 0 then {}
    else
      var x := |row| - 1;
      RowCells(row[..x], y, z) + (if row[x] in CellMarks then {Cell(x, y, z)} else {})
  }

  /** The middle loop of `_parse_occupied_cells`, over the rows of a layer. */
  function LayerCells(rows: seq<string>, z: int): (r: set<Cell>)
    ensures forall c :: c in r <==>
      c.z == z && 0 <= c.y < |rows| && 0 <= c.x < |rows[c.y]| && rows[c.y][c.x] in CellMarks
    decreases |rows|
  {
    if |rows| == 0 then {}
    else
      var y := |rows| - 1;
      LayerCells(rows[..y], z) + RowCells(rows[y], y, z)
  }

  /** `_parse_occupied_cells`: exactly the marked cells. Nothing outside the
      layers and nothing written `.` (or any other character) is occupied. */
  function ParseOccupiedCells(layers: seq<string>): (r: set<Cell>)
    ensures forall c :: c in r <==> Marked(layers, c)
    decreases |layers|
  {
    if |layers| == 0 then {}
    else
      var z := |layers| - 1;
      var below := ParseOccupiedCells(layers[..z]);
      assert forall c :: Marked(layers[..z], c) <==> Marked(layers, c) && c.z < z;
      below + LayerCells(LayerRows(layers[z]), z)
  }

  /** `SomaGrid.from_soma_content`. Its emptiness check can never fire, since
      a split always yields at least one part, so parsing never fails. */
  function FromSomaContent(content: string): (r: Result<Grid, ParseError>)
    ensures r.Success?
    ensures r.value.dims.depth == |Split(Strip(content), "\n\n")|
    ensures r.value.dims.width == |LayerRows(Split(Strip(content), "\n\n")[0])[0]|
    ensures r.value.dims.height == |LayerRows(Split(Strip(content), "\n\n")[0])|
    ensures forall c :: c in r.value.occupied <==> Marked(Split(Strip(content), "\n\n"), c)
  {
    var layers := Split(Strip(content), "\n\n");
    if |layers| == 0 then Failure(EmptySomaContent)
    else
      match FromLayers(layers)
      case Failure(e) => Failure(e)
      case Success(dims) => Success(Grid(dims, ParseOccupiedCells(layers)))
  }

  /** The layer texts the parser sees in a rendered figure. */
  lemma RenderedLayers(layers: seq<seq<string>>)
    requires Solid(layers)
    ensures Split(Strip(Render(layers)), "\n\n") == LayerTexts(layers)
    ensures forall z :: 0 <= z < |layers| ==> LayerRows(LayerTexts(layers)[z]) == layers[z]
  {
    RenderSplits(layers);
  }

  /** Parsing a rendered figure recovers its shape: width, height and depth
      of the first row, first layer and layer list, and as occupied cells
      exactly the positions holding `*` or `o`; for a rectangular figure all
      of them lie inside the dimensions. */
  lemma ParseRendered(layers: seq<seq<string>>)
    requires Solid(layers)
    ensures FromSomaContent(Render(layers)).value.dims
         == Dims(|layers[0][0]|, |layers[0]|, |layers|)
    ensures forall c :: c in FromSomaContent(Render(layers)).value.occupied <==>
      && 0 <= c.z < |layers| && 0 <= c.y < |layers[c.z]| && 0 <= c.x < |layers[c.z][c.y]|
      && layers[c.z][c.y][c.x] in CellMarks
    ensures Rectangular(layers, |layers[0][0]|, |layers[0]|) ==>
      forall c :: c in FromSomaContent(Render(layers)).value.occupied ==>
        Contains(FromSomaContent(Render(layers)).value.dims, c)
  {
    RenderedLayers(layers);
    ParsedFrom(Render(layers), LayerTexts(layers), layers);
    if Rectangular(layers, |layers[0][0]|, |layers[0]|) {
      OccupiedInside(FromSomaContent(Render(layers)).value, layers);
    }
  }

  /** Parsing any content whose layers and rows are known. */
  lemma ParsedFrom(content: string, texts: seq<string>, layers: seq<seq<string>>)
    requires Split(Strip(content), "\n\n") == texts && |texts| == |layers|
    requires forall z :: 0 <= z < |layers| ==> LayerRows(texts[z]) == layers[z]
    requires |layers| > 0 && |layers[0]| > 0
    ensures FromSomaContent(content).value.dims == Dims(|layers[0][0]|, |layers[0]|, |layers|)
    ensures forall c :: c in FromSomaContent(content).value.occupied <==>
      && 0 <= c.z < |layers| && 0 <= c.y < |layers[c.z]| && 0 <= c.x < |layers[c.z][c.y]|
      && layers[c.z][c.y][c.x] in CellMarks
  {
    var r := FromSomaContent(content);
    assert r.value.dims == Dims(|layers[0][0]|, |layers[0]|, |layers|) by {
      ParsedDims(content, texts, layers[0], |layers|);
    }
    assert forall c :: c in r.value.occupied <==> Marked(texts, c);
    MarkedRows(texts, layers);
  }

  /** A cell is marked in layer texts exactly when it holds a mark in the
      rows those texts split into. */
  lemma MarkedRows(texts: seq<string>, layers: seq<seq<string>>)
    requires |texts| == |layers|
    requires forall z :: 0 <= z < |layers| ==> LayerRows(texts[z]) == layers[z]
    ensures forall c :: Marked(texts, c) <==>
      && 0 <= c.z < |layers| && 0 <= c.y < |layers[c.z]| && 0 <= c.x < |layers[c.z][c.y]|
      && layers[c.z][c.y][c.x] in CellMarks
  {
    forall c ensures Marked(texts, c) <==>
      && 0 <= c.z < |layers| && 0 <= c.y < |layers[c.z]| && 0 <= c.x < |layers[c.z][c.y]|
      && layers[c.z][c.y][c.x] in CellMarks
    {
      if 0 <= c.z < |layers| {
        assert LayerRows(texts[c.z]) == layers[c.z];
      }
    }
  }

  /** The dimensions parsed from content whose first layer has known
      rows. */
  lemma ParsedDims(content: string, texts: seq<string>, first: seq<string>, depth: nat)
    requires Split(Strip(content), "\n\n") == texts && |texts| == depth
    requires LayerRows(texts[0]) == first && |first| > 0
    ensures FromSomaContent(content).value.dims == Dims(|first[0]|, |first|, depth)
  {
  }

  /** In a rectangular figure every occupied cell lies inside the
      dimensions. */
  lemma OccupiedInside(g: Grid, layers: seq<seq<string>>)
    requires |layers| > 0 && |layers[0]| > 0
    requires g.dims == Dims(|layers[0][0]|, |layers[0]|, |layers|)
    requires Rectangular(layers, |layers[0][0]|, |layers[0]|)
    requires forall c :: c in g.occupied ==>
      0 <= c.z < |layers| && 0 <= c.y < |layers[c.z]| && 0 <= c.x < |layers[c.z][c.y]|
    ensures forall c :: c in g.occupied ==> Contains(g.dims, c)
  {
  }
}
