/** The front end's controller (frontend/js/uiController.js): keyboard
    commands on the selected piece, the scan of placed cubes into a
    width x height x depth table, the fill check before submission, and the
    encoding of the board as layered text for the back end. */
module UiController {
  import opened Common
  import opened Text
  import opened Layout
  import opened Lattice
  import GridManager
  import PieceManager

  type PieceId = PieceManager.PieceId

  // ---------------------------------------------------------------------
  // Keyboard commands

  datatype Action = Move(axis: Axis, direction: int) | Rotate(axis: Axis) | Remove

  /** The key table of `handleKeyDown`: arrows move in x and y, `z` and `x`
      move in depth, `r`, `f` and `v` turn about x, y and z, `Delete`
      removes; every other key does nothing. */
  function KeyAction(key: string): (a: Option<Action>)
    ensures a.Some? <==> key in ["ArrowLeft", "ArrowRight", "ArrowUp", "ArrowDown", "z", "x", "r", "f", "v", "Delete"]
    ensures a.Some? && a.value.Move? ==> a.value.direction == 1 || a.value.direction == -1
  {
    if key == "ArrowLeft" then Some(Move(X, -1))
    else if key == "ArrowRight" then Some(Move(X, 1))
    else if key == "ArrowUp" then Some(Move(Y, 1))
    else if key == "ArrowDown" then Some(Move(Y, -1))
    else if key == "z" then Some(Move(Z, -1))
    else if key == "x" then Some(Move(Z, 1))
    else if key == "r" then Some(Rotate(X))
    else if key == "f" then Some(Rotate(Y))
    else if key == "v" then Some(Rotate(Z))
    else if key == "Delete" then Some(Remove)
    else None
  }

  /** `handleKeyDown`: without a selection, or for a key outside the table,
      nothing changes; otherwise the key's command runs on the selection.
      No key ever places a piece, and the placement invariant survives. */
  function HandleKeyDown(s: PieceManager.State, key: string): (r: PieceManager.State)
    requires PieceManager.Selectable(s)
    ensures s.selected.None? || KeyAction(key).None? ==> r == s
    ensures r.placed.Keys <= s.placed.Keys
    ensures forall id :: id in r.placed && Some(id) != s.selected ==> r.placed[id] == s.placed[id]
    ensures PieceManager.Selectable(r)
    ensures PieceManager.Valid(s) ==> PieceManager.Valid(r)
  {
    if s.selected.None? then s
    else
      match KeyAction(key)
      case None => s
      case Some(Move(axis, d)) => PieceManager.MovePiece(s, axis, d)
      case Some(Rotate(axis)) => PieceManager.RotatePiece(s, axis)
      case Some(Remove) => PieceManager.RemoveSelectedPiece(s)
  }

  lemma MoveKey(s: PieceManager.State, key: string)
    requires PieceManager.Selectable(s) && s.selected.Some?
    requires KeyAction(key).Some? && KeyAction(key).value.Move?
    ensures HandleKeyDown(s, key) == PieceManager.MovePiece(s, KeyAction(key).value.axis, KeyAction(key).value.direction)
  {
  }

  lemma RotateKey(s: PieceManager.State, key: string)
    requires PieceManager.Selectable(s) && s.selected.Some?
    requires KeyAction(key).Some? && KeyAction(key).value.Rotate?
    ensures HandleKeyDown(s, key) == PieceManager.RotatePiece(s, KeyAction(key).value.axis)
  {
  }

  /** With a selection, `Delete` removes the selected piece. */
  lemma RemoveKey(s: PieceManager.State, key: string)
    requires PieceManager.Selectable(s) && s.selected.Some?
    requires KeyAction(key) == Some(Remove)
    ensures HandleKeyDown(s, key) == PieceManager.RemoveSelectedPiece(s)
  {
  }

  /** A key whose move is the opposite of another key's undoes it on a
      valid state: left and right, up and down, `z` and `x`. */
  lemma OppositeKeysCancel(s: PieceManager.State, k1: string, k2: string)
    requires PieceManager.Valid(s)
    requires KeyAction(k1).Some? && KeyAction(k1).value.Move?
    requires KeyAction(k2) == Some(Move(KeyAction(k1).value.axis, -KeyAction(k1).value.direction))
    ensures HandleKeyDown(HandleKeyDown(s, k1), k2) == s
  {
    if s.selected.Some? {
      var a := KeyAction(k1).value;
      MoveKey(s, k1);
      var s1 := PieceManager.MovePiece(s, a.axis, a.direction);
      MoveKey(s1, k2);
      PieceManager.MoveThereAndBack(s, a.axis, a.direction);
    }
  }

  /** Every move key has its opposite in the table. */
  lemma MoveKeysPaired()
    ensures KeyAction("ArrowRight") == Some(Move(KeyAction("ArrowLeft").value.axis, -KeyAction("ArrowLeft").value.direction))
    ensures KeyAction("ArrowDown") == Some(Move(KeyAction("ArrowUp").value.axis, -KeyAction("ArrowUp").value.direction))
    ensures KeyAction("x") == Some(Move(KeyAction("z").value.axis, -KeyAction("z").value.direction))
  {
  }

  /** Pressing a rotation key four times leaves a valid state as it was. */
  lemma RotationKeyFourTimes(s: PieceManager.State, key: string)
    requires PieceManager.Valid(s)
    requires KeyAction(key).Some? && KeyAction(key).value.Rotate?
    ensures HandleKeyDown(HandleKeyDown(HandleKeyDown(HandleKeyDown(s, key), key), key), key) == s
  {
    if s.selected.Some? {
      var axis := KeyAction(key).value.axis;
      RotateKey(s, key);
      var s1 := PieceManager.RotatePiece(s, axis);
      RotateKey(s1, key);
      var s2 := PieceManager.RotatePiece(s1, axis);
      RotateKey(s2, key);
      var s3 := PieceManager.RotatePiece(s2, axis);
      RotateKey(s3, key);
      PieceManager.RotateFourTimes(s, axis);
    }
  }

  // ---------------------------------------------------------------------
  // Scanning the placed cubes

  /** One cube mesh of a placed piece: its world position and the id of the
      group it belongs to. */
  datatype CubeMesh = CubeMesh(x: real, y: real, z: real, pieceId: PieceId)

  /** The lattice cell a mesh falls in: each coordinate floored. */
  function MeshCell(m: CubeMesh): (c: Cell)
    ensures c.x as real <= m.x < c.x as real + 1.0
    ensures c.y as real <= m.y < c.y as real + 1.0
    ensures c.z as real <= m.z < c.z as real + 1.0
  {
    Cell(m.x.Floor, m.y.Floor, m.z.Floor)
  }

  /** `currentState`: indexed `[x][y][z]`, `None` for an empty cell. */
  type Table = seq<seq<seq<Option<PieceId>>>>

  predicate Shaped(t: Table, d: Dims) {
    && |t| == d.width
    && (forall x :: 0 <= x < |t| ==> |t[x]| == d.height)
    && (forall x, y :: 0 <= x < |t| && 0 <= y < |t[x]| ==> |t[x][y]| == d.depth)
  }

  /** The piece of the last mesh, in traversal order, that lies in `c`. */
  function LastMeshAt(meshes: seq<CubeMesh>, c: Cell): (r: Option<PieceId>)
    ensures r.None? <==> forall i :: 0 <= i < |meshes| ==> MeshCell(meshes[i]) != c
    ensures r.Some? ==> exists i :: 0 <= i < |meshes| && MeshCell(meshes[i]) == c && meshes[i].pieceId == r.value
  {
    if |meshes| == 0 then None
    else
      var last := meshes[|meshes| - 1];
      var before := LastMeshAt(meshes[..|meshes| - 1], c);
      assert forall i :: 0 <= i < |meshes| - 1 ==> meshes[..|meshes| - 1][i] == meshes[i];
      if MeshCell(last) == c then Some(last.pieceId) else before
  }

  /** The table the scan is meant to produce: each cell of the lattice
      holds the piece last seen in it. */
  function Scanned(d: Dims, meshes: seq<CubeMesh>): (t: Table)
    ensures Shaped(t, d)
    ensures forall x, y, z :: 0 <= x < d.width && 0 <= y < d.height && 0 <= z < d.depth ==>
      t[x][y][z] == LastMeshAt(meshes, Cell(x, y, z))
  {
    seq(d.width, x =>
      seq(d.height, y =>
        seq(d.depth, z => LastMeshAt(meshes, Cell(x, y, z)))))
  }

  /** The table before any mesh is seen. */
  function EmptyTable(d: Dims): (t: Table)
    ensures Shaped(t, d)
    ensures forall x, y, z :: 0 <= x < d.width && 0 <= y < d.height && 0 <= z < d.depth ==> t[x][y][z].None?
  {
    seq(d.width, x => seq(d.height, y => seq(d.depth, z => None)))
  }

  lemma TableExt(t: Table, u: Table, d: Dims)
    requires Shaped(t, d) && Shaped(u, d)
    requires forall x, y, z :: 0 <= x < d.width && 0 <= y < d.height && 0 <= z < d.depth ==> t[x][y][z] == u[x][y][z]
    ensures t == u
  {
    forall x | 0 <= x < d.width ensures t[x] == u[x] {
      forall y | 0 <= y < d.height ensures t[x][y] == u[x][y] {
        assert forall z :: 0 <= z < d.depth ==> t[x][y][z] == u[x][y][z];
      }
    }
  }

  /** One write of the scan: `c` gets `id`, every other cell is kept. */
  function Put(t: Table, d: Dims, c: Cell, id: PieceId): (u: Table)
    requires Shaped(t, d) && Contains(d, c)
    ensures Shaped(u, d)
    ensures forall x, y, z :: 0 <= x < d.width && 0 <= y < d.height && 0 <= z < d.depth ==>
      u[x][y][z] == if Cell(x, y, z) == c then Some(id) else t[x][y][z]
  {
    t[c.x := t[c.x][c.y := t[c.x][c.y][c.z := Some(id)]]]
  }

  /** Seeing one more mesh changes only the answer for its own cell. */
  lemma LastMeshAtSnoc(meshes: seq<CubeMesh>, i: nat, c: Cell)
    requires i < |meshes|
    ensures LastMeshAt(meshes[..i + 1], c)
         == if MeshCell(meshes[i]) == c then Some(meshes[i].pieceId) else LastMeshAt(meshes[..i], c)
  {
    assert meshes[..i + 1][..i] == meshes[..i];
  }

  /** One pass of the scan's loop turns the answer for the first `i` meshes
      into the answer for the first `i + 1`. */
  lemma ScanStep(d: Dims, meshes: seq<CubeMesh>, i: nat, t: Table)
    requires i < |meshes| && Shaped(t, d)
    requires forall x, y, z :: 0 <= x < d.width && 0 <= y < d.height && 0 <= z < d.depth ==>
      t[x][y][z] == LastMeshAt(meshes[..i], Cell(x, y, z))
    ensures var c := MeshCell(meshes[i]);
      var u := if Contains(d, c) then Put(t, d, c, meshes[i].pieceId) else t;
      forall x, y, z :: 0 <= x < d.width && 0 <= y < d.height && 0 <= z < d.depth ==>
        u[x][y][z] == LastMeshAt(meshes[..i + 1], Cell(x, y, z))
  {
    var c := MeshCell(meshes[i]);
    var u := if Contains(d, c) then Put(t, d, c, meshes[i].pieceId) else t;
    forall x, y, z | 0 <= x < d.width && 0 <= y < d.height && 0 <= z < d.depth
      ensures u[x][y][z] == LastMeshAt(meshes[..i + 1], Cell(x, y, z))
    {
      LastMeshAtSnoc(meshes, i, Cell(x, y, z));
    }
  }

  /** `scanGridState`: start from an empty table and, mesh by mesh in
      traversal order, write the mesh's piece into its cell when the cell is
      inside the lattice. Meshes outside are ignored, and a later mesh in
      the same cell overwrites an earlier one. */
  method ScanGridState(d: Dims, meshes: seq<CubeMesh>) returns (t: Table)
    ensures t == Scanned(d, meshes)
  {
    t := EmptyTable(d);
    var i := 0;
    while i < |meshes|
      invariant 0 <= i <= |meshes|
      invariant Shaped(t, d)
      invariant forall x, y, z :: 0 <= x < d.width && 0 <= y < d.height && 0 <= z < d.depth ==>
        t[x][y][z] == LastMeshAt(meshes[..i], Cell(x, y, z))
    {
      var m := meshes[i];
      var c := MeshCell(m);
      ScanStep(d, meshes, i, t);
      if Contains(d, c) {
        t := Put(t, d, c, m.pieceId);
      }
      i := i + 1;
    }
    assert meshes[..i] == meshes;
    TableExt(t, Scanned(d, meshes), d);
  }

  /** The scanned table has an entry exactly at the cells `isWithinBounds`
      admits, and such an entry is set exactly when some mesh lies in it:
      a mesh outside the bounds leaves no trace. */
  lemma ScannedWithinBounds(g: GridManager.Grid, meshes: seq<CubeMesh>, x: int, y: int, z: int)
    ensures var t := Scanned(g.dims, meshes);
      (0 <= x < |t| && 0 <= y < |t[x]| && 0 <= z < |t[x][y]|) <==> GridManager.IsWithinBounds(g, x, y, z)
    ensures GridManager.IsWithinBounds(g, x, y, z) ==>
      (Scanned(g.dims, meshes)[x][y][z].Some? <==> exists i :: 0 <= i < |meshes| && MeshCell(meshes[i]) == Cell(x, y, z))
  {
    var t := Scanned(g.dims, meshes);
    if GridManager.IsWithinBounds(g, x, y, z) {
      assert t[x][y][z] == LastMeshAt(meshes, Cell(x, y, z));
    }
  }

  // ---------------------------------------------------------------------
  // The fill check

  /** The outcome of the loop over occupied cells in `checkSolution`. A cell
      whose x or y lies outside the table makes the lookup throw; a cell
      whose z lies outside reads `undefined` and counts as unfilled. */
  datatype Fill = Filled | Unfilled | Fault

  /** `t[c.x][c.y]` can be read without throwing. */
  predicate Reachable(t: Table, c: Cell) {
    0 <= c.x < |t| && 0 <= c.y < |t[c.x]|
  }

  /** Cell `c` of the table holds a piece. */
  predicate Holds(t: Table, c: Cell) {
    Reachable(t, c) && 0 <= c.z < |t[c.x][c.y]| && t[c.x][c.y][c.z].Some?
  }

  /** The fill loop: the cells are visited in order and the first one
      without a piece decides between `Unfilled` and `Fault`. */
  function FillCheck(cells: seq<Cell>, t: Table): (r: Fill)
    ensures r == Filled <==> forall i :: 0 <= i < |cells| ==> Holds(t, cells[i])
    ensures r != Filled ==>
      exists i :: && 0 <= i < |cells| && !Holds(t, cells[i])
                  && (forall j :: 0 <= j < i ==> Holds(t, cells[j]))
                  && (r == Fault <==> !Reachable(t, cells[i]))
  {
    if |cells| == 0 then Filled
    else
      var c := cells[0];
      if !Reachable(t, c) then Fault
      else if !Holds(t, c) then Unfilled
      else
        var rest := FillCheck(cells[1..], t);
        assert forall i :: 1 <= i < |cells| ==> cells[i] == cells[1..][i - 1];
        if rest == Filled then rest
        else
          var k :| 0 <= k < |cells[1..]| && !Holds(t, cells[1..][k])
            && (forall j :: 0 <= j < k ==> Holds(t, cells[1..][j]))
            && (rest == Fault <==> !Reachable(t, cells[1..][k]));
          assert !Holds(t, cells[k + 1]) && (forall j :: 0 <= j < k + 1 ==> Holds(t, cells[j]));
          rest
  }

  /** On a table of the grid's shape, a cell holds a piece exactly when it
      is inside the grid and the scan put a piece there; the lookup only
      throws for x or y outside the grid. */
  lemma HoldsInBounds(t: Table, d: Dims, c: Cell)
    requires Shaped(t, d)
    ensures Holds(t, c) <==> Contains(d, c) && t[c.x][c.y][c.z].Some?
    ensures Reachable(t, c) <==> 0 <= c.x < d.width && 0 <= c.y < d.height
  {
  }

  // ---------------------------------------------------------------------
  // Encoding the board

  /** The character written for cell `(x, y, z)`: `.` outside the figure,
      the piece when one is there, and otherwise the figure's own mark. */
  function CellChar(g: GridManager.Grid, t: Table, x: nat, y: nat, z: nat): (ch: char)
    requires Shaped(t, g.dims) && x < g.dims.width && y < g.dims.height && z < g.dims.depth
    ensures !GridManager.IsOccupiedCell(g, x, y, z) ==> ch == '.'
    ensures GridManager.IsOccupiedCell(g, x, y, z) && t[x][y][z].Some? ==> ch == t[x][y][z].value
    ensures GridManager.IsOccupiedCell(g, x, y, z) && t[x][y][z].None? ==> ch in CellMarks
  {
    if GridManager.IsOccupiedCell(g, x, y, z) then
      match t[x][y][z]
      case Some(id) => id
      case None => GridManager.GetOriginalCell(g, x, y, z)
    else '.'
  }

  /** Row `y` of layer `z`, one character per column. */
  function CellRow(g: GridManager.Grid, t: Table, y: nat, z: nat): (row: string)
    requires Shaped(t, g.dims) && y < g.dims.height && z < g.dims.depth
    ensures |row| == g.dims.width
    ensures forall x :: 0 <= x < |row| ==> row[x] == CellChar(g, t, x, y, z)
  {
    seq(g.dims.width, x requires 0 <= x < g.dims.width => CellChar(g, t, x, y, z))
  }

  /** The board as layers of rows. */
  function CellLayers(g: GridManager.Grid, t: Table): (layers: seq<seq<string>>)
    requires Shaped(t, g.dims)
    ensures |layers| == g.dims.depth
    ensures forall z :: 0 <= z < |layers| ==> |layers[z]| == g.dims.height
    ensures forall z, y :: 0 <= z < |layers| && 0 <= y < |layers[z]| ==> layers[z][y] == CellRow(g, t, y, z)
  {
    seq(g.dims.depth, z requires 0 <= z < g.dims.depth =>
      seq(g.dims.height, y requires 0 <= y < g.dims.height => CellRow(g, t, y, z)))
  }

  /** The first `n` rows of layer `z`, each ended by a newline: the middle
      loop of `convertToYassFormat`. */
  function EncodeRows(g: GridManager.Grid, t: Table, z: nat, n: nat): (s: string)
    requires Shaped(t, g.dims) && z < g.dims.depth && n <= g.dims.height
    ensures |s| == n * (g.dims.width + 1)
  {
    if n == 0 then []
    else EncodeRows(g, t, z, n - 1) + CellRow(g, t, n - 1, z) + "\n"
  }

  /** The length of one encoded layer: `height` rows of `width` cells,
      each row ended by a newline. */
  function LayerSize(d: Dims): nat {
    d.height * (d.width + 1)
  }

  /** The first `n` layers: the outer loop, with one extra newline after
      every layer except the last. */
  function EncodeLayers(g: GridManager.Grid, t: Table, n: nat): (s: string)
    requires Shaped(t, g.dims) && n <= g.dims.depth
    ensures |s| + (if 0 < n == g.dims.depth then 1 else 0) == n * (LayerSize(g.dims) + 1)
  {
    if n == 0 then []
    else
      var k := LayerSize(g.dims) + 1;
      assert (n - 1) * k + k == n * k;
      EncodeLayers(g, t, n - 1) + EncodeRows(g, t, n - 1, g.dims.height)
      + (if n - 1 < g.dims.depth - 1 then "\n" else "")
  }

  /** `convertToYassFormat`: every row ends with a newline and layers are
      separated by one more; its length is fixed by the dimensions alone. */
  function ConvertToYassFormat(g: GridManager.Grid, t: Table): (s: string)
    requires Shaped(t, g.dims)
    ensures g.dims.depth == 0 ==> s == []
    ensures g.dims.depth > 0 ==> |s| == g.dims.depth * (LayerSize(g.dims) + 1) - 1
  {
    EncodeLayers(g, t, g.dims.depth)
  }

  /** The first `n` of `rows`, each followed by a newline. */
  function Lines(rows: seq<string>, n: nat): string
    requires n <= |rows|
  {
    if n == 0 then [] else Lines(rows, n - 1) + rows[n - 1] + "\n"
  }

  lemma {:induction false} LinesJoin(rows: seq<string>, n: nat)
    requires 1 <= n <= |rows|
    ensures Lines(rows, n) == Join(rows[..n], "\n") + "\n"
    decreases n
  {
    if n == 1 {
      assert rows[..1] == [rows[0]];
    } else {
      LinesJoin(rows, n - 1);
      assert rows[..n] == rows[..n - 1] + [rows[n - 1]];
      JoinAppend(rows[..n - 1], "\n", rows[n - 1]);
    }
  }

  lemma {:induction false} EncodeRowsLines(g: GridManager.Grid, t: Table, z: nat, n: nat)
    requires Shaped(t, g.dims) && z < g.dims.depth && n <= g.dims.height
    ensures EncodeRows(g, t, z, n) == Lines(CellLayers(g, t)[z], n)
    decreases n
  {
    if n > 0 {
      EncodeRowsLines(g, t, z, n - 1);
    }
  }

  /** The middle loop writes the rows of a layer joined by newlines, and
      one newline more. */
  lemma EncodeRowsJoin(g: GridManager.Grid, t: Table, z: nat, n: nat)
    requires Shaped(t, g.dims) && z < g.dims.depth && 1 <= n <= g.dims.height
    ensures EncodeRows(g, t, z, n) == Join(CellLayers(g, t)[z][..n], "\n") + "\n"
  {
    EncodeRowsLines(g, t, z, n);
    LinesJoin(CellLayers(g, t)[z], n);
  }

  /** One layer of the encoding is the layer's text and a newline. */
  lemma EncodeBlock(g: GridManager.Grid, t: Table, z: nat)
    requires Shaped(t, g.dims) && z < g.dims.depth && g.dims.height >= 1
    ensures EncodeRows(g, t, z, g.dims.height) == LayerTexts(CellLayers(g, t))[z] + "\n"
  {
    var layers := CellLayers(g, t);
    EncodeRowsJoin(g, t, z, g.dims.height);
    assert layers[z][..g.dims.height] == layers[z];
  }

  /** Gluing one more layer onto the encoded layers before it. */
  lemma GlueLayer(e: string, prev: string, joined: string, before: string, text: string, tail: string)
    requires prev == before + "\n" + "\n"
    requires e == prev + (text + "\n") + tail
    requires joined == before + "\n\n" + text
    ensures e == joined + "\n" + tail
  {
  }

  /** The first `n` of `texts`, each followed by a newline and, except
      after the last of all, a blank line. */
  function Blocks(texts: seq<string>, n: nat): string
    requires n <= |texts|
  {
    if n == 0 then []
    else Blocks(texts, n - 1) + (texts[n - 1] + "\n") + (if n < |texts| then "\n" else "")
  }

  lemma {:induction false} BlocksJoin(texts: seq<string>, n: nat)
    requires 1 <= n <= |texts|
    ensures Blocks(texts, n) == Join(texts[..n], "\n\n") + "\n" + (if n < |texts| then "\n" else "")
    decreases n
  {
    var tail: string := if n < |texts| then "\n" else "";
    if n == 1 {
      assert texts[..1] == [texts[0]];
    } else {
      BlocksJoin(texts, n - 1);
      var before := Join(texts[..n - 1], "\n\n");
      assert texts[..n] == texts[..n - 1] + [texts[n - 1]];
      JoinAppend(texts[..n - 1], "\n\n", texts[n - 1]);
      GlueLayer(Blocks(texts, n), Blocks(texts, n - 1), Join(texts[..n], "\n\n"), before, texts[n - 1], tail);
    }
  }

  lemma EncodeLayersStep(g: GridManager.Grid, t: Table, n: nat)
    requires Shaped(t, g.dims) && 1 <= n <= g.dims.depth && g.dims.height >= 1
    ensures EncodeLayers(g, t, n)
         == EncodeLayers(g, t, n - 1) + (LayerTexts(CellLayers(g, t))[n - 1] + "\n")
            + (if n < g.dims.depth then "\n" else "")
  {
    EncodeBlock(g, t, n - 1);
  }

  lemma {:induction false} EncodeLayersBlocks(g: GridManager.Grid, t: Table, n: nat)
    requires Shaped(t, g.dims) && n <= g.dims.depth && g.dims.height >= 1
    ensures EncodeLayers(g, t, n) == Blocks(LayerTexts(CellLayers(g, t)), n)
    decreases n
  {
    if n > 0 {
      EncodeLayersBlocks(g, t, n - 1);
      EncodeLayersStep(g, t, n);
    }
  }

  /** The outer loop writes the layer texts joined by blank lines, and a
      newline more (two while layers remain). */
  lemma EncodeLayersJoin(g: GridManager.Grid, t: Table, n: nat)
    requires Shaped(t, g.dims) && 1 <= n <= g.dims.depth && g.dims.height >= 1
    ensures EncodeLayers(g, t, n)
         == Join(LayerTexts(CellLayers(g, t))[..n], "\n\n") + "\n" + (if n < g.dims.depth then "\n" else "")
  {
    EncodeLayersBlocks(g, t, n);
    BlocksJoin(LayerTexts(CellLayers(g, t)), n);
  }

  /** The encoding is the board rendered in the layered figure format with
      one newline after it: the same text a `.soma` figure of the board
      would hold. */
  lemma EncodeAsRender(g: GridManager.Grid, t: Table)
    requires Shaped(t, g.dims) && g.dims.depth >= 1 && g.dims.height >= 1
    ensures ConvertToYassFormat(g, t) == Render(CellLayers(g, t)) + "\n"
  {
    EncodeLayersJoin(g, t, g.dims.depth);
    assert LayerTexts(CellLayers(g, t))[..g.dims.depth] == LayerTexts(CellLayers(g, t));
  }

  // ---------------------------------------------------------------------
  // Checking a solution

  /** What pressing "Check Solution" leads to before the network: a prompt
      to fill the grid, the text that is posted, or an exception from the
      fill loop. */
  datatype Check = Incomplete | Submit(gridState: string) | Crash

  /** `checkSolution` up to the request: scan, check that every occupied
      cell holds a piece, and encode. The text is posted exactly when every
      occupied cell lies inside the grid and a piece's cube lies in it. */
  function CheckSolution(g: GridManager.Grid, meshes: seq<CubeMesh>): (r: Check)
    ensures r.Submit? <==> forall i :: 0 <= i < |g.occupied| ==>
      Contains(g.dims, g.occupied[i]) && LastMeshAt(meshes, g.occupied[i]).Some?
    ensures r.Crash? ==>
      exists i :: 0 <= i < |g.occupied| && !(0 <= g.occupied[i].x < g.dims.width && 0 <= g.occupied[i].y < g.dims.height)
    ensures r.Submit? ==> r.gridState == ConvertToYassFormat(g, Scanned(g.dims, meshes))
  {
    var t := Scanned(g.dims, meshes);
    forall c ensures Holds(t, c) <==> Contains(g.dims, c) && t[c.x][c.y][c.z].Some? {
      HoldsInBounds(t, g.dims, c);
    }
    match FillCheck(g.occupied, t)
    case Filled => Submit(ConvertToYassFormat(g, t))
    case Unfilled => Incomplete
    case Fault => Crash
  }
}
