/** The back end's canonical form for solutions, `normalize_solution` in
    backend/utils.py: the board's labelled cubes are turned through 64
    rotation sequences, each orientation is shifted to start at the origin,
    written back into a box of the board's size and rendered, and the
    least rendering the placement check accepts is the normal form. */
module Normalization {
  import opened Common
  import opened Text
  import opened Layout
  import opened Validation

  /** A labelled cube `(x, y, z, piece)`. */
  datatype Point = Point(x: int, y: int, z: int, piece: char) {
    function Get(a: Axis): int {
      match a
      case X => x
      case Y => y
      case Z => z
    }
  }

  // ---------------------------------------------------------------------
  // Reading the board

  /** The board as the normaliser reads it: stripped, split into layers on
      blank lines, and each layer split into rows without further
      stripping. */
  function SolutionGrid(solution: string): (grid: seq<seq<string>>)
    ensures |grid| >= 1
    ensures forall z :: 0 <= z < |grid| ==> |grid[z]| >= 1
  {
    var layers := Split(Strip(solution), "\n\n");
    seq(|layers|, z requires 0 <= z < |layers| => Split(layers[z], "\n"))
  }

  /** Every row the scan of `get_piece_positions` reads exists: with a
      non-zero width, every layer has `h` rows and each of them `w` cells.
      With width zero no cell is ever read. */
  predicate Covers(grid: seq<seq<string>>, w: nat, h: nat) {
    w == 0 ||
    forall z :: 0 <= z < |grid| ==>
      h <= |grid[z]| && forall y :: 0 <= y < h ==> w <= |grid[z][y]|
  }

  /** The labelled cube `p` is read from `grid` at its own coordinates. */
  predicate ReadFrom(grid: seq<seq<string>>, w: nat, h: nat, p: Point) {
    && 0 <= p.z < |grid| && 0 <= p.y < h && 0 <= p.x < w
    && p.y < |grid[p.z]| && p.x < |grid[p.z][p.y]|
    && grid[p.z][p.y][p.x] != '.' && p.piece == grid[p.z][p.y][p.x]
  }

  /** The first `n` columns of one row. */
  function RowPoints(row: string, n: nat, y: nat, z: nat): (ps: seq<Point>)
    requires n <= |row|
    ensures forall p :: p in ps <==>
      p.y == y && p.z == z && 0 <= p.x < n && row[p.x] != '.' && p.piece == row[p.x]
  {
    if n == 0 then []
    else RowPoints(row, n - 1, y, z) + (if row[n - 1] != '.' then [Point(n - 1, y, z, row[n - 1])] else [])
  }

  /** The first `n` rows of one layer, `w` columns each. */
  function LayerPoints(layer: seq<string>, w: nat, n: nat, z: nat): (ps: seq<Point>)
    requires n <= |layer| && forall y :: 0 <= y < n ==> w <= |layer[y]|
    ensures forall p :: p in ps <==>
      p.z == z && 0 <= p.y < n && 0 <= p.x < w && layer[p.y][p.x] != '.' && p.piece == layer[p.y][p.x]
  {
    if n == 0 then []
    else LayerPoints(layer, w, n - 1, z) + RowPoints(layer[n - 1], w, n - 1, z)
  }

  /** The first `n` layers, `h` rows of `w` columns each. */
  function GridPoints(grid: seq<seq<string>>, w: nat, h: nat, n: nat): (ps: seq<Point>)
    requires n <= |grid| && w > 0 && Covers(grid, w, h)
    ensures forall p :: p in ps <==> p.z < n && ReadFrom(grid, w, h, p)
  {
    if n == 0 then []
    else
      var below := GridPoints(grid, w, h, n - 1);
      var layer := LayerPoints(grid[n - 1], w, h, n - 1);
      GridPointsStep(grid, w, h, n, below, layer);
      below + layer
  }

  lemma GridPointsStep(grid: seq<seq<string>>, w: nat, h: nat, n: nat, below: seq<Point>, layer: seq<Point>)
    requires 0 < n <= |grid| && w > 0 && Covers(grid, w, h)
    requires forall p :: p in below <==> p.z < n - 1 && ReadFrom(grid, w, h, p)
    requires forall p :: p in layer <==>
      p.z == n - 1 && 0 <= p.y < h && 0 <= p.x < w && grid[n - 1][p.y][p.x] != '.' && p.piece == grid[n - 1][p.y][p.x]
    ensures forall p :: p in below + layer <==> p.z < n && ReadFrom(grid, w, h, p)
  {
    forall p ensures p in below + layer <==> p.z < n && ReadFrom(grid, w, h, p) {
      assert p in below + layer <==> p in below || p in layer;
      if p.z == n - 1 && 0 <= p.y < h {
        assert p.y < |grid[p.z]| && w <= |grid[p.z][p.y]|;
      }
    }
  }

  /** `get_piece_positions`: every cell of the `w x h x depth` box that is
      not `.`, with its label. A row or layer shorter than the box makes the
      scan raise `IndexError`: `None`. */
  function GetPiecePositions(grid: seq<seq<string>>, w: nat, h: nat): (r: Option<seq<Point>>)
    ensures r.None? <==> !Covers(grid, w, h)
    ensures r.Some? ==> forall p :: p in r.value <==> ReadFrom(grid, w, h, p)
  {
    if w == 0 then Some([])
    else if !Covers(grid, w, h) then None
    else Some(GridPoints(grid, w, h, |grid|))
  }

  /** No two cubes at one position carry different labels. */
  predicate Consistent(ps: seq<Point>) {
    forall i, j :: 0 <= i < |ps| && 0 <= j < |ps| && ps[i].x == ps[j].x && ps[i].y == ps[j].y && ps[i].z == ps[j].z
      ==> ps[i].piece == ps[j].piece
  }

  /** A board read cell by cell never has two labels at one position. */
  lemma PositionsConsistent(grid: seq<seq<string>>, w: nat, h: nat)
    requires GetPiecePositions(grid, w, h).Some?
    ensures Consistent(GetPiecePositions(grid, w, h).value)
  {
    var ps := GetPiecePositions(grid, w, h).value;
    forall i, j | 0 <= i < |ps| && 0 <= j < |ps| && ps[i].x == ps[j].x && ps[i].y == ps[j].y && ps[i].z == ps[j].z
      ensures ps[i].piece == ps[j].piece
    {
      assert ps[i] in ps && ps[j] in ps;
    }
  }

  /** Every label read from the board is a character of the stripped
      board. */
  lemma ReadLabelIn(solution: string, ps: seq<Point>, i: nat)
    requires SolutionPositions(solution) == Some(ps) && i < |ps|
    ensures ps[i].piece in Strip(solution)
  {
    var grid := SolutionGrid(solution);
    var layers := Split(Strip(solution), "\n\n");
    assert ps[i] in ps;
    assert ReadFrom(grid, |grid[0][0]|, |grid[0]|, ps[i]);
    var p := ps[i];
    JoinHas(grid[p.z], "\n", p.y, p.x);
    JoinSplit(layers[p.z], "\n");
    var k :| 0 <= k < |layers[p.z]| && layers[p.z][k] == p.piece;
    JoinHas(layers, "\n\n", p.z, k);
    JoinSplit(Strip(solution), "\n\n");
  }

  // ---------------------------------------------------------------------
  // Rotations

  /** `rotate_positions` on one cube: a quarter turn about `axis`, which
      keeps that coordinate and the label. */
  function RotatePoint(p: Point, axis: Axis): (q: Point)
    ensures q.piece == p.piece && q.Get(axis) == p.Get(axis)
  {
    match axis
    case X => Point(p.x, -p.z, p.y, p.piece)
    case Y => Point(p.z, p.y, -p.x, p.piece)
    case Z => Point(-p.y, p.x, p.z, p.piece)
  }

  /** Different positions stay different under a turn. */
  lemma RotatePointInjective(p: Point, q: Point, axis: Axis)
    requires RotatePoint(p, axis).x == RotatePoint(q, axis).x
    requires RotatePoint(p, axis).y == RotatePoint(q, axis).y
    requires RotatePoint(p, axis).z == RotatePoint(q, axis).z
    ensures p.x == q.x && p.y == q.y && p.z == q.z
  {
  }

  /** `rotate_positions`: every cube turned, order kept. */
  function RotatePositions(ps: seq<Point>, axis: Axis): (r: seq<Point>)
    ensures |r| == |ps|
    ensures forall i :: 0 <= i < |ps| ==> r[i] == RotatePoint(ps[i], axis)
  {
    seq(|ps|, i requires 0 <= i < |ps| => RotatePoint(ps[i], axis))
  }

  /** `n` turns about `axis`. */
  function RotN(ps: seq<Point>, axis: Axis, n: nat): (r: seq<Point>)
    ensures |r| == |ps|
  {
    if n == 0 then ps else RotatePositions(RotN(ps, axis, n - 1), axis)
  }

  /** Four quarter turns about one axis are the identity. */
  lemma RotateFourTimes(ps: seq<Point>, axis: Axis)
    ensures RotN(ps, axis, 4) == ps
  {
    var r := RotN(ps, axis, 4);
    forall i | 0 <= i < |ps| ensures r[i] == ps[i] {
      var p := ps[i];
      assert RotN(ps, axis, 1)[i] == RotatePoint(p, axis);
      assert RotN(ps, axis, 2)[i] == RotatePoint(RotatePoint(p, axis), axis);
      assert RotN(ps, axis, 3)[i] == RotatePoint(RotatePoint(RotatePoint(p, axis), axis), axis);
    }
  }

  lemma RotateConsistent(ps: seq<Point>, axis: Axis)
    requires Consistent(ps)
    ensures Consistent(RotatePositions(ps, axis))
  {
    var r := RotatePositions(ps, axis);
    forall i, j | 0 <= i < |r| && 0 <= j < |r| && r[i].x == r[j].x && r[i].y == r[j].y && r[i].z == r[j].z
      ensures r[i].piece == r[j].piece
    {
      RotatePointInjective(ps[i], ps[j], axis);
    }
  }

  lemma {:induction false} RotNConsistent(ps: seq<Point>, axis: Axis, n: nat)
    requires Consistent(ps)
    ensures Consistent(RotN(ps, axis, n))
    decreases n
  {
    if n > 0 {
      RotNConsistent(ps, axis, n - 1);
      RotateConsistent(RotN(ps, axis, n - 1), axis);
    }
  }

  /** The orientation reached after `a` turns about z, then `b` about y,
      then `c` about x. */
  function Orient(ps: seq<Point>, a: nat, b: nat, c: nat): (r: seq<Point>)
    ensures |r| == |ps|
  {
    RotN(RotN(RotN(ps, Z, a), Y, b), X, c)
  }

  lemma OrientConsistent(ps: seq<Point>, a: nat, b: nat, c: nat)
    requires Consistent(ps)
    ensures Consistent(Orient(ps, a, b, c))
  {
    RotNConsistent(ps, Z, a);
    RotNConsistent(RotN(ps, Z, a), Y, b);
    RotNConsistent(RotN(RotN(ps, Z, a), Y, b), X, c);
  }

  /** Turning never changes a cube's label or its place in the list. */
  lemma OrientPieces(ps: seq<Point>, a: nat, b: nat, c: nat)
    ensures forall i :: 0 <= i < |ps| ==> Orient(ps, a, b, c)[i].piece == ps[i].piece
  {
    RotNPieces(ps, Z, a);
    RotNPieces(RotN(ps, Z, a), Y, b);
    RotNPieces(RotN(RotN(ps, Z, a), Y, b), X, c);
  }

  lemma {:induction false} RotNPieces(ps: seq<Point>, axis: Axis, n: nat)
    ensures forall i :: 0 <= i < |ps| ==> RotN(ps, axis, n)[i].piece == ps[i].piece
    decreases n
  {
    if n > 0 {
      RotNPieces(ps, axis, n - 1);
    }
  }

  // ---------------------------------------------------------------------
  // Back into a box

  /** Python's `min` over a non-empty list of integers. */
  function MinInt(xs: seq<int>): (m: int)
    requires |xs| > 0
    ensures m in xs
    ensures forall i :: 0 <= i < |xs| ==> m <= xs[i]
  {
    if |xs| == 1 then xs[0]
    else
      var rest := MinInt(xs[1..]);
      assert forall i :: 1 <= i < |xs| ==> xs[i] == xs[1..][i - 1];
      if xs[0] <= rest then xs[0] else rest
  }

  /** The least coordinate along `axis`, one of the cubes' own. */
  function Low(ps: seq<Point>, axis: Axis): (m: int)
    requires |ps| > 0
    ensures forall i :: 0 <= i < |ps| ==> m <= ps[i].Get(axis)
    ensures exists i :: 0 <= i < |ps| && ps[i].Get(axis) == m
  {
    var xs := seq(|ps|, i requires 0 <= i < |ps| => ps[i].Get(axis));
    var m := MinInt(xs);
    assert forall i :: 0 <= i < |ps| ==> xs[i] == ps[i].Get(axis);
    m
  }

  /** Cube `p` of `ps` lands on cell `(x, y, z)` once `ps` is shifted to
      start at the origin. */
  predicate LandsAt(ps: seq<Point>, p: Point, x: int, y: int, z: int)
    requires |ps| > 0
  {
    p.x - Low(ps, X) == x && p.y - Low(ps, Y) == y && p.z - Low(ps, Z) == z
  }

  /** The label of the last cube of `ps[..n]` landing on `(x, y, z)`. */
  function LastPieceAt(ps: seq<Point>, n: nat, x: int, y: int, z: int): (r: Option<char>)
    requires 0 < |ps| && n <= |ps|
    ensures r.None? <==> forall i :: 0 <= i < n ==> !LandsAt(ps, ps[i], x, y, z)
    ensures r.Some? ==> exists i :: 0 <= i < n && LandsAt(ps, ps[i], x, y, z) && ps[i].piece == r.value
  {
    if n == 0 then None
    else if LandsAt(ps, ps[n - 1], x, y, z) then Some(ps[n - 1].piece)
    else LastPieceAt(ps, n - 1, x, y, z)
  }

  /** `positions_to_grid`: a `w x h x d` box of `.`, with the shifted
      cubes written into it in order; a cube outside the box is dropped and
      a later cube overwrites an earlier one. `min` of an empty list raises,
      so there must be a cube. */
  function PositionsToGrid(ps: seq<Point>, w: nat, h: nat, d: nat): (grid: seq<seq<string>>)
    requires |ps| > 0
    ensures |grid| == d && Rectangular(grid, w, h)
    ensures forall z, y, x :: 0 <= z < d && 0 <= y < h && 0 <= x < w ==>
      grid[z][y][x] == match LastPieceAt(ps, |ps|, x, y, z) case None => '.' case Some(c) => c
  {
    seq(d, z requires 0 <= z < d =>
      seq(h, y requires 0 <= y < h =>
        seq(w, x requires 0 <= x < w =>
          match LastPieceAt(ps, |ps|, x, y, z)
          case None => '.'
          case Some(c) => c)))
  }

  /** Every cube lands inside a `w x h x d` box. */
  predicate Fits(ps: seq<Point>, w: nat, h: nat, d: nat)
    requires |ps| > 0
  {
    forall i :: 0 <= i < |ps| ==>
      ps[i].x - Low(ps, X) < w && ps[i].y - Low(ps, Y) < h && ps[i].z - Low(ps, Z) < d
  }

  /** When every cube fits and no position carries two labels, each cube's
      label is found at its shifted position: nothing is lost. */
  lemma PiecesKept(ps: seq<Point>, w: nat, h: nat, d: nat)
    requires |ps| > 0 && Consistent(ps) && Fits(ps, w, h, d)
    ensures forall i :: 0 <= i < |ps| ==>
      PositionsToGrid(ps, w, h, d)[ps[i].z - Low(ps, Z)][ps[i].y - Low(ps, Y)][ps[i].x - Low(ps, X)] == ps[i].piece
  {
    var grid := PositionsToGrid(ps, w, h, d);
    forall i | 0 <= i < |ps|
      ensures grid[ps[i].z - Low(ps, Z)][ps[i].y - Low(ps, Y)][ps[i].x - Low(ps, X)] == ps[i].piece
    {
      var x, y, z := ps[i].x - Low(ps, X), ps[i].y - Low(ps, Y), ps[i].z - Low(ps, Z);
      assert LandsAt(ps, ps[i], x, y, z);
      var r := LastPieceAt(ps, |ps|, x, y, z);
      var j :| 0 <= j < |ps| && LandsAt(ps, ps[j], x, y, z) && ps[j].piece == r.value;
    }
  }

  /** A rendering of `ps` holds nothing but `.`, newlines and the cubes'
      labels. */
  lemma GridChars(ps: seq<Point>, w: nat, h: nat, d: nat, ch: char)
    requires |ps| > 0 && ch in Render(PositionsToGrid(ps, w, h, d))
    ensures ch == '.' || ch == '\n' || exists i :: 0 <= i < |ps| && ps[i].piece == ch
  {
    var grid := PositionsToGrid(ps, w, h, d);
    RenderChars(grid, ch);
    if ch != '\n' {
      var z, y :| 0 <= z < |grid| && 0 <= y < |grid[z]| && ch in grid[z][y];
      var x :| 0 <= x < |grid[z][y]| && grid[z][y][x] == ch;
      assert grid[z][y][x] == match LastPieceAt(ps, |ps|, x, y, z) case None => '.' case Some(c) => c;
    }
  }

  // ---------------------------------------------------------------------
  // The 64 orientations

  /** What the sweep needs to know: the box of the submitted board, the
      figure file, and whether an orientation that does not fit the box is
      skipped (`fitOnly`) or, as `normalize_solution` is written, tried with its outlying
      cubes dropped. */
  datatype Frame = Frame(w: nat, h: nat, d: nat, shapeFile: Option<string>, fitOnly: bool)

  /** `grid_to_string(positions_to_grid(positions))`. */
  function Candidate(ps: seq<Point>, f: Frame): string
    requires |ps| > 0
  {
    Render(PositionsToGrid(ps, f.w, f.h, f.d))
  }

  /** The orientation `ps` contributes its rendering `c`. */
  predicate Hit(f: Frame, ps: seq<Point>, c: string) {
    && |ps| > 0
    && (f.fitOnly ==> Fits(ps, f.w, f.h, f.d))
    && c == Candidate(ps, f)
    && IsValidPlacement(c, f.shapeFile)
  }

  /** What one pass of the innermost loop adds: the orientation's
      rendering when the check accepts it. */
  function Try(f: Frame, ps: seq<Point>): seq<string> {
    if |ps| == 0 then []
    else
      var c := Candidate(ps, f);
      if Hit(f, ps, c) then [c] else []
  }

  lemma TryHits(f: Frame, ps: seq<Point>, c: string)
    ensures c in Try(f, ps) <==> Hit(f, ps, c)
  {
    if |ps| > 0 && c != Candidate(ps, f) {
      assert !Hit(f, ps, c);
    }
  }

  /** The renderings collected so far and the current orientation. */
  datatype Sweep = Sweep(found: seq<string>, positions: seq<Point>)

  /** `k` passes of the innermost loop: try, then turn about x. */
  function SweepX(try: seq<Point> -> seq<string>, s: Sweep, k: nat): Sweep {
    if k == 0 then s
    else
      var p := SweepX(try, s, k - 1);
      Sweep(p.found + try(p.positions), RotatePositions(p.positions, X))
  }

  /** `k` passes of the middle loop: four x passes, then turn about y. */
  function SweepY(try: seq<Point> -> seq<string>, s: Sweep, k: nat): Sweep {
    if k == 0 then s
    else
      var q := SweepX(try, SweepY(try, s, k - 1), 4);
      Sweep(q.found, RotatePositions(q.positions, Y))
  }

  /** `k` passes of the outer loop: four y passes, then turn about z. */
  function SweepZ(try: seq<Point> -> seq<string>, s: Sweep, k: nat): Sweep {
    if k == 0 then s
    else
      var q := SweepY(try, SweepZ(try, s, k - 1), 4);
      Sweep(q.found, RotatePositions(q.positions, Z))
  }

  /** The `rotations` set, as the list it is built from. */
  function Candidates(f: Frame, ps: seq<Point>): seq<string> {
    SweepZ(q => Try(f, q), Sweep([], ps), 4).found
  }

  /* The facts below name the orientations through `Orient`, which is not
     recursive, so that the quantifiers' triggers match across calls. */

  lemma {:induction false} SweepXFacts(try: seq<Point> -> seq<string>, s: Sweep, k: nat)
    ensures SweepX(try, s, k).positions == RotN(s.positions, X, k)
    ensures forall c :: c in SweepX(try, s, k).found <==> c in s.found || (exists i :: 0 <= i < k && c in try(Orient(s.positions, 0, 0, i)))
    decreases k
  {
    if k > 0 {
      SweepXFacts(try, s, k - 1);
      var p := SweepX(try, s, k - 1);
      var last := try(Orient(s.positions, 0, 0, k - 1));
      assert SweepX(try, s, k).found == p.found + last;
      forall c
        ensures c in SweepX(try, s, k).found <==> c in s.found || (exists i :: 0 <= i < k && c in try(Orient(s.positions, 0, 0, i)))
      {
        if exists i :: 0 <= i < k && c in try(Orient(s.positions, 0, 0, i)) {
          var i :| 0 <= i < k && c in try(Orient(s.positions, 0, 0, i));
          if i < k - 1 {
            assert c in p.found;
          } else {
            assert c in last;
          }
        }
      }
    }
  }

  lemma {:induction false} SweepYFacts(try: seq<Point> -> seq<string>, s: Sweep, k: nat)
    ensures SweepY(try, s, k).positions == RotN(s.positions, Y, k)
    ensures forall c :: c in SweepY(try, s, k).found <==> c in s.found || (exists b, i :: 0 <= b < k && 0 <= i < 4 && c in try(Orient(s.positions, 0, b, i)))
    decreases k
  {
    if k > 0 {
      SweepYFacts(try, s, k - 1);
      var p := SweepY(try, s, k - 1);
      SweepXFacts(try, p, 4);
      RotateFourTimes(p.positions, X);
      forall i | 0 <= i < 4 ensures Orient(p.positions, 0, 0, i) == Orient(s.positions, 0, k - 1, i) {
      }
      forall c
        ensures c in SweepY(try, s, k).found <==> c in s.found || (exists b, i :: 0 <= b < k && 0 <= i < 4 && c in try(Orient(s.positions, 0, b, i)))
      {
        if exists b, i :: 0 <= b < k && 0 <= i < 4 && c in try(Orient(s.positions, 0, b, i)) {
          var b, i :| 0 <= b < k && 0 <= i < 4 && c in try(Orient(s.positions, 0, b, i));
          if b < k - 1 {
            assert c in p.found;
          } else {
            assert c in try(Orient(p.positions, 0, 0, i));
          }
        }
        if c in SweepY(try, s, k).found && c !in p.found {
          var i :| 0 <= i < 4 && c in try(Orient(p.positions, 0, 0, i));
          assert c in try(Orient(s.positions, 0, k - 1, i));
        }
      }
    }
  }

  lemma YPassIdentity(try: seq<Point> -> seq<string>, p: Sweep)
    ensures SweepY(try, p, 4).positions == p.positions
  {
    SweepYFacts(try, p, 4);
    RotateFourTimes(p.positions, Y);
  }

  lemma {:induction false} SweepZFacts(try: seq<Point> -> seq<string>, s: Sweep, k: nat)
    ensures SweepZ(try, s, k).positions == RotN(s.positions, Z, k)
    ensures forall c :: c in SweepZ(try, s, k).found <==> c in s.found || (exists a, b, i :: 0 <= a < k && 0 <= b < 4 && 0 <= i < 4 && c in try(Orient(s.positions, a, b, i)))
    decreases k
  {
    if k > 0 {
      SweepZFacts(try, s, k - 1);
      var p := SweepZ(try, s, k - 1);
      SweepYFacts(try, p, 4);
      YPassIdentity(try, p);
      forall b, i | 0 <= b < 4 && 0 <= i < 4 ensures Orient(p.positions, 0, b, i) == Orient(s.positions, k - 1, b, i) {
      }
      forall c
        ensures c in SweepZ(try, s, k).found <==> c in s.found || (exists a, b, i :: 0 <= a < k && 0 <= b < 4 && 0 <= i < 4 && c in try(Orient(s.positions, a, b, i)))
      {
        if exists a, b, i :: 0 <= a < k && 0 <= b < 4 && 0 <= i < 4 && c in try(Orient(s.positions, a, b, i)) {
          var a, b, i :| 0 <= a < k && 0 <= b < 4 && 0 <= i < 4 && c in try(Orient(s.positions, a, b, i));
          if a < k - 1 {
            assert c in p.found;
          } else {
            assert c in try(Orient(p.positions, 0, b, i));
          }
        }
        if c in SweepZ(try, s, k).found && c !in p.found {
          var b, i :| 0 <= b < 4 && 0 <= i < 4 && c in try(Orient(p.positions, 0, b, i));
          assert c in try(Orient(s.positions, k - 1, b, i));
        }
      }
    }
  }

  /** The loops try exactly the 64 orientations `Orient(ps, a, b, c)` with
      `a`, `b` and `c` below four, and keep the renderings the check
      accepts. */
  lemma CandidatesAreOrientations(f: Frame, ps: seq<Point>)
    ensures forall c :: c in Candidates(f, ps) <==>
      exists a, b, i :: 0 <= a < 4 && 0 <= b < 4 && 0 <= i < 4 && Hit(f, Orient(ps, a, b, i), c)
  {
    var try := q => Try(f, q);
    SweepZFacts(try, Sweep([], ps), 4);
    forall c ensures c in Candidates(f, ps) <==>
      exists a, b, i :: 0 <= a < 4 && 0 <= b < 4 && 0 <= i < 4 && Hit(f, Orient(ps, a, b, i), c)
    {
      if c in Candidates(f, ps) {
        var a, b, i :| 0 <= a < 4 && 0 <= b < 4 && 0 <= i < 4 && c in try(Orient(ps, a, b, i));
        TryHits(f, Orient(ps, a, b, i), c);
      }
      if exists a, b, i :: 0 <= a < 4 && 0 <= b < 4 && 0 <= i < 4 && Hit(f, Orient(ps, a, b, i), c) {
        var a, b, i :| 0 <= a < 4 && 0 <= b < 4 && 0 <= i < 4 && Hit(f, Orient(ps, a, b, i), c);
        TryHits(f, Orient(ps, a, b, i), c);
        assert c in try(Orient(ps, a, b, i));
      }
    }
  }

  // ---------------------------------------------------------------------
  // The normal form

  /** The frame for a submitted board. */
  function FrameOf(solution: string, shapeFile: Option<string>, fitOnly: bool): Frame {
    var grid := SolutionGrid(solution);
    Frame(|grid[0][0]|, |grid[0]|, |grid|, shapeFile, fitOnly)
  }

  /** The labelled cubes of a submitted board, `None` when the scan raises. */
  function SolutionPositions(solution: string): Option<seq<Point>> {
    var grid := SolutionGrid(solution);
    GetPiecePositions(grid, |grid[0][0]|, |grid[0]|)
  }

  /** The normaliser, with the sweep's treatment of orientations that do not
      fit chosen by `fitOnly`. Every failure (no figure file, a ragged
      board, a board without cubes, no accepted orientation) falls back to
      the stripped board. */
  function NormalizeWith(solution: string, shapeFile: Option<string>, fitOnly: bool): (r: string)
    ensures shapeFile.None? ==> r == Strip(solution)
    ensures SolutionPositions(solution).None? || SolutionPositions(solution) == Some([]) ==> r == Strip(solution)
    ensures r == Strip(solution) || IsValidPlacement(r, shapeFile)
  {
    if shapeFile.None? then Strip(solution)
    else
      match SolutionPositions(solution)
      case None => Strip(solution)
      case Some(ps) =>
        if |ps| == 0 then Strip(solution)
        else
          var f := FrameOf(solution, shapeFile, fitOnly);
          var found := Candidates(f, ps);
          if |found| == 0 then Strip(solution)
          else
            var m := MinString(found);
            CandidatesAreOrientations(f, ps);
            m
  }

  /** `normalize_solution` as written: an orientation that does not fit the
      board's box is still rendered, with its outlying cubes dropped. */
  function NormalizeAsWritten(solution: string, shapeFile: Option<string>): (r: string)
    ensures shapeFile.None? ==> r == Strip(solution)
    ensures SolutionPositions(solution).None? || SolutionPositions(solution) == Some([]) ==> r == Strip(solution)
    ensures r == Strip(solution) || IsValidPlacement(r, shapeFile)
  {
    NormalizeWith(solution, shapeFile, false)
  }

  /** The normaliser the rest of the model uses: only orientations in which
      every cube fits the board's box are candidates. */
  function NormalizeFitting(solution: string, shapeFile: Option<string>): (r: string)
    ensures shapeFile.None? ==> r == Strip(solution)
    ensures SolutionPositions(solution).None? || SolutionPositions(solution) == Some([]) ==> r == Strip(solution)
    ensures r == Strip(solution) || IsValidPlacement(r, shapeFile)
  {
    NormalizeWith(solution, shapeFile, true)
  }

  /** When some orientation is accepted, the normal form is the least
      accepted rendering among the 64 orientations, in Python's string
      order. */
  lemma NormalizeIsLeast(solution: string, shapeFile: Option<string>, fitOnly: bool, ps: seq<Point>, a: nat, b: nat, c: nat)
    requires shapeFile.Some? && SolutionPositions(solution) == Some(ps) && |ps| > 0
    requires a < 4 && b < 4 && c < 4
    requires Hit(FrameOf(solution, shapeFile, fitOnly), Orient(ps, a, b, c), Candidate(Orient(ps, a, b, c), FrameOf(solution, shapeFile, fitOnly)))
    ensures var f := FrameOf(solution, shapeFile, fitOnly);
      var r := NormalizeWith(solution, shapeFile, fitOnly);
      && (exists a', b', c' :: 0 <= a' < 4 && 0 <= b' < 4 && 0 <= c' < 4 && Hit(f, Orient(ps, a', b', c'), r))
      && (forall a', b', c' :: 0 <= a' < 4 && 0 <= b' < 4 && 0 <= c' < 4 && Hit(f, Orient(ps, a', b', c'), Candidate(Orient(ps, a', b', c'), f))
            ==> LexLe(r, Candidate(Orient(ps, a', b', c'), f)))
  {
    var f := FrameOf(solution, shapeFile, fitOnly);
    CandidatesAreOrientations(f, ps);
    var found := Candidates(f, ps);
    assert Candidate(Orient(ps, a, b, c), f) in found;
  }

  /** Unless it fell back to the stripped board, the normal form is the
      accepted rendering of one of the 64 orientations. */
  lemma NormalizeFromSweep(solution: string, shapeFile: Option<string>, fitOnly: bool, ps: seq<Point>)
    requires SolutionPositions(solution) == Some(ps) && |ps| > 0
    requires NormalizeWith(solution, shapeFile, fitOnly) != Strip(solution)
    ensures exists a, b, c :: (
      && 0 <= a < 4 && 0 <= b < 4 && 0 <= c < 4
      && Hit(FrameOf(solution, shapeFile, fitOnly), Orient(ps, a, b, c), NormalizeWith(solution, shapeFile, fitOnly)))
  {
    CandidatesAreOrientations(FrameOf(solution, shapeFile, fitOnly), ps);
  }

  /** Every cube of `q` fits the box and its label is found at its shifted
      position. */
  predicate KeepsAll(q: seq<Point>, w: nat, h: nat, d: nat)
    requires |q| > 0
  {
    && Fits(q, w, h, d)
    && forall i :: 0 <= i < |q| ==>
         PositionsToGrid(q, w, h, d)[q[i].z - Low(q, Z)][q[i].y - Low(q, Y)][q[i].x - Low(q, X)] == q[i].piece
  }

  /** An orientation of a consistent board that fits the box keeps all of
      its cubes. */
  lemma FitKeepsAll(ps: seq<Point>, a: nat, b: nat, c: nat, w: nat, h: nat, d: nat)
    requires Consistent(ps) && |ps| > 0 && Fits(Orient(ps, a, b, c), w, h, d)
    ensures KeepsAll(Orient(ps, a, b, c), w, h, d)
  {
    var q := Orient(ps, a, b, c);
    assert Consistent(q) by {
      OrientConsistent(ps, a, b, c);
    }
    PiecesKept(q, w, h, d);
  }

  /** The corrected normal form keeps every cube: when it comes from the
      sweep, it is the rendering of an orientation of the board in which
      each cube's label sits at its shifted position. */
  lemma NormalizeKeepsPieces(solution: string, shapeFile: Option<string>, ps: seq<Point>)
    requires SolutionPositions(solution) == Some(ps) && |ps| > 0
    requires NormalizeFitting(solution, shapeFile) != Strip(solution)
    ensures exists a, b, c :: (
      && 0 <= a < 4 && 0 <= b < 4 && 0 <= c < 4
      && Hit(FrameOf(solution, shapeFile, true), Orient(ps, a, b, c), NormalizeFitting(solution, shapeFile))
      && KeepsAll(Orient(ps, a, b, c), |SolutionGrid(solution)[0][0]|, |SolutionGrid(solution)[0]|, |SolutionGrid(solution)|))
  {
    var f := FrameOf(solution, shapeFile, true);
    var grid := SolutionGrid(solution);
    var r := NormalizeFitting(solution, shapeFile);
    NormalizeFromSweep(solution, shapeFile, true, ps);
    var a, b, c :| 0 <= a < 4 && 0 <= b < 4 && 0 <= c < 4 && Hit(f, Orient(ps, a, b, c), r);
    PositionsConsistent(grid, |grid[0][0]|, |grid[0]|);
    FitKeepsAll(ps, a, b, c, f.w, f.h, f.d);
  }

  /** The normal form is made of the board's own characters, `.` and
      newlines: normalising never invents a label. */
  lemma NormalFormChars(solution: string, shapeFile: Option<string>, fitOnly: bool, ch: char)
    requires ch in NormalizeWith(solution, shapeFile, fitOnly)
    ensures ch in Strip(solution) || ch == '.' || ch == '\n'
  {
    var r := NormalizeWith(solution, shapeFile, fitOnly);
    if r != Strip(solution) {
      var ps := SolutionPositions(solution).value;
      NormalizeFromSweep(solution, shapeFile, fitOnly, ps);
      var f := FrameOf(solution, shapeFile, fitOnly);
      var a, b, c :| 0 <= a < 4 && 0 <= b < 4 && 0 <= c < 4 && Hit(f, Orient(ps, a, b, c), r);
      var q := Orient(ps, a, b, c);
      GridChars(q, f.w, f.h, f.d, ch);
      if ch != '.' && ch != '\n' {
        var i :| 0 <= i < |q| && q[i].piece == ch;
        OrientPieces(ps, a, b, c);
        ReadLabelIn(solution, ps, i);
      }
    }
  }

  /** A label the board does not hold never appears in its normal form. */
  lemma NormalFormLacks(solution: string, shapeFile: Option<string>, l: char)
    requires l !in Strip(solution) && l != '.' && l != '\n'
    ensures l !in NormalizeFitting(solution, shapeFile)
  {
    if l in NormalizeFitting(solution, shapeFile) {
      NormalFormChars(solution, shapeFile, true, l);
    }
  }

  /** The corrected normal form holds the label of every cube of the
      board. */
  lemma NormalFormKeepsLabels(solution: string, shapeFile: Option<string>, ps: seq<Point>, i: nat)
    requires SolutionPositions(solution) == Some(ps) && i < |ps|
    ensures ps[i].piece in NormalizeFitting(solution, shapeFile)
  {
    var r := NormalizeFitting(solution, shapeFile);
    if r == Strip(solution) {
      ReadLabelIn(solution, ps, i);
    } else {
      var grid := SolutionGrid(solution);
      var f := FrameOf(solution, shapeFile, true);
      NormalizeKeepsPieces(solution, shapeFile, ps);
      var a, b, c :| 0 <= a < 4 && 0 <= b < 4 && 0 <= c < 4 && Hit(f, Orient(ps, a, b, c), r) && KeepsAll(Orient(ps, a, b, c), f.w, f.h, f.d);
      OrientPieces(ps, a, b, c);
      KeptLabelShows(Orient(ps, a, b, c), f.w, f.h, f.d, i);
    }
  }

  lemma KeptLabelShows(q: seq<Point>, w: nat, h: nat, d: nat, i: nat)
    requires i < |q| && KeepsAll(q, w, h, d)
    ensures q[i].piece in Render(PositionsToGrid(q, w, h, d))
  {
    ShownAt(PositionsToGrid(q, w, h, d), q, w, h, d, i);
  }

  lemma ShownAt(grid: seq<seq<string>>, q: seq<Point>, w: nat, h: nat, d: nat, i: nat)
    requires i < |q| && |grid| == d && Rectangular(grid, w, h) && Fits(q, w, h, d)
    requires grid[q[i].z - Low(q, Z)][q[i].y - Low(q, Y)][q[i].x - Low(q, X)] == q[i].piece
    ensures q[i].piece in Render(grid)
  {
    assert Low(q, X) <= q[i].Get(X) && Low(q, Y) <= q[i].Get(Y) && Low(q, Z) <= q[i].Get(Z);
    RenderHas(grid, q[i].z - Low(q, Z), q[i].y - Low(q, Y), q[i].x - Low(q, X));
  }
}
