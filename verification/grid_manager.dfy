/** The front end's grid model (frontend/js/gridManager.js): the lattice
    dimensions, the set of occupied cells, the original-shape mask with its
    lookup, and the wireframe edges drawn around the occupied cells. */
module GridManager {
  import opened Common
  import opened Text
  import opened Layout
  import opened Lattice

  /** The grid state. `occupied` is the JavaScript `Set` of cell keys, kept
      as a sequence without repeats in insertion order, the order the set
      iterates in. `mask` is `originalShape`, `null` until a grid is loaded. */
  datatype Grid = Grid(dims: Dims, occupied: seq<Cell>, mask: Option<string>)

  /** The JSON body of a successful fetch. A body without an
      `occupied_cells` array has `occupiedCells == None`. */
  datatype Payload = Payload(dimensions: Dims, occupiedCells: Option<seq<Cell>>, originalShape: Option<string>)

  /** What `loadGrid` reports, and the grid state it leaves behind. */
  datatype Loaded = Loaded(ok: bool, grid: Grid)

  predicate Distinct(cells: seq<Cell>) {
    forall i, j :: 0 <= i < j < |cells| ==> cells[i] != cells[j]
  }

  /** `a` occurs in `cells` before the first occurrence of `b`. */
  predicate FirstBefore(cells: seq<Cell>, a: Cell, b: Cell) {
    exists k :: 0 <= k < |cells| && cells[k] == a && b !in cells[..k]
  }

  /** `new Set(list)`: each element once, in order of first appearance. */
  function Dedup(cells: seq<Cell>): (r: seq<Cell>)
    ensures Distinct(r)
    ensures forall c :: c in r <==> c in cells
    ensures |r| <= |cells|
    ensures forall i, j :: 0 <= i < j < |r| ==> FirstBefore(cells, r[i], r[j])
  {
    if |cells| == 0 then []
    else
      var d := Dedup(cells[..|cells| - 1]);
      var c := cells[|cells| - 1];
      assert cells == cells[..|cells| - 1] + [c];
      DedupOrderStep(cells[..|cells| - 1], c, d);
      if c in d then d else d + [c]
  }

  /** Appending `c` to the list keeps the first-appearance order of `d`,
      and extends it by `c` when `c` is new. */
  lemma DedupOrderStep(prefix: seq<Cell>, c: Cell, d: seq<Cell>)
    requires forall x :: x in d <==> x in prefix
    requires forall i, j :: 0 <= i < j < |d| ==> FirstBefore(prefix, d[i], d[j])
    ensures forall i, j :: 0 <= i < j < |d| ==> FirstBefore(prefix + [c], d[i], d[j])
    ensures c !in d ==> forall i, j :: 0 <= i < j < |d + [c]| ==> FirstBefore(prefix + [c], (d + [c])[i], (d + [c])[j])
  {
    var cells := prefix + [c];
    forall a, b | FirstBefore(prefix, a, b)
      ensures FirstBefore(cells, a, b)
    {
      var k :| 0 <= k < |prefix| && prefix[k] == a && b !in prefix[..k];
      assert cells[..k] == prefix[..k];
      assert cells[k] == a;
    }
    if c !in d {
      forall i | 0 <= i < |d|
        ensures FirstBefore(cells, d[i], c)
      {
        assert d[i] in prefix;
        var k :| 0 <= k < |prefix| && prefix[k] == d[i];
        assert cells[..k] == prefix[..k];
        assert cells[k] == d[i];
      }
      forall i, j | 0 <= i < j < |d + [c]|
        ensures FirstBefore(cells, (d + [c])[i], (d + [c])[j])
      {
        if j < |d| {
          assert FirstBefore(prefix, d[i], d[j]);
        } else {
          assert (d + [c])[j] == c && (d + [c])[i] == d[i];
        }
      }
    }
  }

  /** `isOccupiedCell`: membership of the key "x,y,z". */
  predicate IsOccupiedCell(g: Grid, x: int, y: int, z: int) {
    Cell(x, y, z) in g.occupied
  }

  /** `isWithinBounds`. */
  predicate IsWithinBounds(g: Grid, x: int, y: int, z: int) {
    Contains(g.dims, Cell(x, y, z))
  }

  /** `resetGridState`: no dimensions, no cells, no mask. */
  function ResetGridState(): (g: Grid)
    ensures g.dims == Dims(0, 0, 0) && g.mask.None?
    ensures forall x, y, z :: !IsOccupiedCell(g, x, y, z)
  {
    Grid(Dims(0, 0, 0), [], None)
  }

  /** `updateGridState`: dimensions, occupied set and mask are replaced
      together, the occupied set holding exactly the listed cells. */
  function UpdateGridState(dimensions: Dims, cells: seq<Cell>, shape: Option<string>): (g: Grid)
    ensures g.dims == dimensions && g.mask == shape
    ensures forall x, y, z :: IsOccupiedCell(g, x, y, z) <==> Cell(x, y, z) in cells
    ensures forall c :: c in g.occupied <==> c in cells
    ensures Distinct(g.occupied)
  {
    Grid(dimensions, Dedup(cells), shape)
  }

  /** `loadGrid` after its fetch has settled; `response` is `None` when the
      fetch or its JSON decoding failed. The reset runs only after a
      successful fetch, so a failed fetch leaves the prior grid untouched.
      A body without `occupied_cells` makes `updateGridState` throw after
      it has assigned the dimensions: the call then reports failure with the
      grid already reset apart from its new dimensions. */
  function LoadGrid(prior: Grid, response: Option<Payload>): (r: Loaded)
    ensures response.None? ==> r == Loaded(false, prior)
    ensures r.ok <==> response.Some? && response.value.occupiedCells.Some?
    ensures r.ok ==>
      && r.grid.dims == response.value.dimensions
      && r.grid.mask == response.value.originalShape
      && (forall x, y, z :: IsOccupiedCell(r.grid, x, y, z) <==> Cell(x, y, z) in response.value.occupiedCells.value)
    ensures response.Some? && !r.ok ==>
      r.grid == Grid(response.value.dimensions, [], None)
  {
    match response
    case None => Loaded(false, prior)
    case Some(data) =>
      var cleared := ResetGridState();
      match data.occupiedCells
      case None => Loaded(false, cleared.(dims := data.dimensions))
      case Some(cells) => Loaded(true, UpdateGridState(data.dimensions, cells, data.originalShape))
  }

  /** `getOriginalCell`: the mask character at column `x` of row `y` of
      layer `z` when it is `*` or `o`, and `*` in every other case: no mask
      (or an empty one), a layer, row or column beyond the mask, or any
      other character. */
  function GetOriginalCell(g: Grid, x: nat, y: nat, z: nat): (r: char)
    ensures r == '*' || r == 'o'
    ensures g.mask.None? || g.mask == Some([]) ==> r == '*'
  {
    if g.mask.None? || g.mask.value == [] then '*'
    else
      var layers := Split(g.mask.value, "\n\n");
      if z >= |layers| then '*'
      else
        var rows := Split(layers[z], "\n");
        if y >= |rows| then '*'
        else
          var row := rows[y];
          if x >= |row| then '*'
          else if row[x] in CellMarks then row[x]
          else '*'
  }

  /** With a rendered figure as mask, the lookup reads the figure: `o` where
      the figure has `o`, and `*` everywhere else, including every position
      outside it. */
  lemma OriginalCellOfRendered(g: Grid, layers: seq<seq<string>>, x: nat, y: nat, z: nat)
    requires Solid(layers) && g.mask == Some(Render(layers))
    ensures GetOriginalCell(g, x, y, z) ==
      if z < |layers| && y < |layers[z]| && x < |layers[z][y]| && layers[z][y][x] == 'o' then 'o' else '*'
  {
    var texts := LayerTexts(layers);
    MaskSplits(layers);
    var m := g.mask.value;
    assert Split(m, "\n\n") == texts;
    if z < |layers| {
      var rows := Split(texts[z], "\n");
      assert rows == layers[z];
      if y < |rows| && x < |rows[y]| {
        assert rows[y][x] == layers[z][y][x];
      }
    }
  }

  /** A wireframe segment between two lattice points. */
  datatype Edge = Edge(start: Cell, end: Cell)

  /** `p` is one of the eight corners of the unit cube at `c`. */
  predicate IsCorner(p: Cell, c: Cell) {
    && (p.x == c.x || p.x == c.x + 1)
    && (p.y == c.y || p.y == c.y + 1)
    && (p.z == c.z || p.z == c.z + 1)
  }

  /** `b` is `a` moved one unit up exactly one axis. */
  predicate UnitStep(a: Cell, b: Cell) {
    || b == Cell(a.x + 1, a.y, a.z)
    || b == Cell(a.x, a.y + 1, a.z)
    || b == Cell(a.x, a.y, a.z + 1)
  }

  /** `e` is an edge of the unit cube at `c`. */
  predicate IsCubeEdge(e: Edge, c: Cell) {
    IsCorner(e.start, c) && IsCorner(e.end, c) && UnitStep(e.start, e.end)
  }

  /** `getCellEdges`: the twelve edges of the unit cube at `(x, y, z)`, four
      on the bottom face, four on the top and four vertical, all different,
      and no other edge of the cube left out. */
  function GetCellEdges(x: int, y: int, z: int): (edges: seq<Edge>)
    ensures |edges| == 12
    ensures forall i :: 0 <= i < |edges| ==> IsCubeEdge(edges[i], Cell(x, y, z))
    ensures forall i, j :: 0 <= i < j < |edges| ==> edges[i] != edges[j]
    ensures forall e :: IsCubeEdge(e, Cell(x, y, z)) ==> e in edges
  {
    var c0, c1, c2, c3 := Cell(x, y, z), Cell(x + 1, y, z), Cell(x, y + 1, z), Cell(x + 1, y + 1, z);
    var c4, c5, c6, c7 := Cell(x, y, z + 1), Cell(x + 1, y, z + 1), Cell(x, y + 1, z + 1), Cell(x + 1, y + 1, z + 1);
    [ Edge(c0, c1), Edge(c0, c2), Edge(c1, c3), Edge(c2, c3),
      Edge(c4, c5), Edge(c4, c6), Edge(c5, c7), Edge(c6, c7),
      Edge(c0, c4), Edge(c1, c5), Edge(c2, c6), Edge(c3, c7) ]
  }

  /** The edges of the cells in iteration order, twelve per cell. */
  function EdgesOf(cells: seq<Cell>): (edges: seq<Edge>)
    ensures |edges| == 12 * |cells|
    ensures forall e :: e in edges <==> exists i :: 0 <= i < |cells| && IsCubeEdge(e, cells[i])
  {
    if |cells| == 0 then []
    else
      var n := |cells| - 1;
      var c := cells[n];
      var before := EdgesOf(cells[..n]);
      assert forall i :: 0 <= i < n ==> cells[..n][i] == cells[i];
      before + GetCellEdges(c.x, c.y, c.z)
  }

  /** `calculateGridEdges`: every edge of every occupied cell and nothing
      else. The `Set` it collects into holds freshly built arrays, so an
      edge shared by two neighbouring cells is kept twice: there are
      exactly twelve edges per occupied cell. */
  function CalculateGridEdges(g: Grid): (edges: seq<Edge>)
    ensures |edges| == 12 * |g.occupied|
    ensures forall c, e :: c in g.occupied && IsCubeEdge(e, c) ==> e in edges
    ensures forall e :: e in edges ==> exists c :: c in g.occupied && IsCubeEdge(e, c)
  {
    var edges := EdgesOf(g.occupied);
    assert forall c :: c in g.occupied ==> exists i :: 0 <= i < |g.occupied| && g.occupied[i] == c;
    edges
  }
}
