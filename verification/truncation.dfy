/** What the normaliser in backend/utils.py does with an orientation that
    does not fit the board's box. `positions_to_grid` drops the cubes that
    land outside the box, and the placement check accepts `.` on a cell of
    the figure, so such an orientation is rendered with cubes missing and
    can still be accepted. Since `.` sorts before every piece label, the
    truncated rendering tends to be the least one and becomes the normal
    form: on the figure `***`, the boards `tlc` and `tnc` both normalise to
    `c..`, and the duplicate check takes the second for the first. The
    corrected normaliser skips orientations that do not fit and keeps the
    two apart. */
module Truncation {
  import opened Common
  import opened Text
  import opened Layout
  import opened Validation
  import opened Normalization

  /** A straight figure of three cells along x. */
  const Figure: string := "***"

  /** The labels used below: valid piece labels from `c` upward, so that
      each sorts after `.` and is not whitespace. */
  predicate Label(ch: char) {
    ch in ValidPieces && 'c' <= ch
  }

  /** The cubes of the one-row board `[p0, p1, p2]`, in scan order. */
  function Bar(p0: char, p1: char, p2: char): seq<Point> {
    [Point(0, 0, 0, p0), Point(1, 0, 0, p1), Point(2, 0, 0, p2)]
  }

  /** All cubes share their coordinate along `axis`. */
  predicate Flat(q: seq<Point>, axis: Axis) {
    forall i, j :: 0 <= i < |q| && 0 <= j < |q| ==> q[i].Get(axis) == q[j].Get(axis)
  }

  /** All cubes lie on one line parallel to an axis. */
  predicate OnAxisLine(q: seq<Point>) {
    || (Flat(q, Y) && Flat(q, Z))
    || (Flat(q, X) && Flat(q, Z))
    || (Flat(q, X) && Flat(q, Y))
  }

  /** Where a quarter turn about `axis` sends the coordinate along `b`. */
  function Image(axis: Axis, b: Axis): Axis {
    match axis
    case X => (match b case X => X case Y => Z case Z => Y)
    case Y => (match b case X => Z case Y => Y case Z => X)
    case Z => (match b case X => Y case Y => X case Z => Z)
  }

  lemma RotateFlat(q: seq<Point>, axis: Axis, b: Axis)
    requires Flat(q, b)
    ensures Flat(RotatePositions(q, axis), Image(axis, b))
  {
    var r := RotatePositions(q, axis);
    forall i, j | 0 <= i < |r| && 0 <= j < |r|
      ensures r[i].Get(Image(axis, b)) == r[j].Get(Image(axis, b))
    {
      assert q[i].Get(b) == q[j].Get(b);
    }
  }

  lemma RotateLine(q: seq<Point>, axis: Axis)
    requires OnAxisLine(q)
    ensures OnAxisLine(RotatePositions(q, axis))
  {
    if Flat(q, Y) && Flat(q, Z) {
      RotateFlat(q, axis, Y);
      RotateFlat(q, axis, Z);
    } else if Flat(q, X) && Flat(q, Z) {
      RotateFlat(q, axis, X);
      RotateFlat(q, axis, Z);
    } else {
      RotateFlat(q, axis, X);
      RotateFlat(q, axis, Y);
    }
  }

  /** The invariant of the sweep over a straight board: the cubes stay on a
      line parallel to an axis and keep their labels. */
  lemma {:induction false} RotNLine(q: seq<Point>, axis: Axis, n: nat)
    requires OnAxisLine(q)
    ensures OnAxisLine(RotN(q, axis, n))
    ensures forall i :: 0 <= i < |q| ==> RotN(q, axis, n)[i].piece == q[i].piece
    decreases n
  {
    if n > 0 {
      RotNLine(q, axis, n - 1);
      RotateLine(RotN(q, axis, n - 1), axis);
    }
  }

  lemma OrientLine(q: seq<Point>, a: nat, b: nat, c: nat)
    requires OnAxisLine(q)
    ensures OnAxisLine(Orient(q, a, b, c))
    ensures forall i :: 0 <= i < |q| ==> Orient(q, a, b, c)[i].piece == q[i].piece
  {
    RotNLine(q, Z, a);
    RotNLine(RotN(q, Z, a), Y, b);
    RotNLine(RotN(RotN(q, Z, a), Y, b), X, c);
  }

  /** On a line parallel to an axis, the cube that is lowest along the line
      lands on the corner `(0, 0, 0)`. */
  lemma OriginTaken(q: seq<Point>)
    requires |q| > 0 && OnAxisLine(q)
    ensures exists k :: 0 <= k < |q| && LandsAt(q, q[k], 0, 0, 0)
  {
    var lx, ly, lz := Low(q, X), Low(q, Y), Low(q, Z);
    var kx :| 0 <= kx < |q| && q[kx].Get(X) == lx;
    var ky :| 0 <= ky < |q| && q[ky].Get(Y) == ly;
    var kz :| 0 <= kz < |q| && q[kz].Get(Z) == lz;
    if Flat(q, Y) && Flat(q, Z) {
      assert LandsAt(q, q[kx], 0, 0, 0);
    } else if Flat(q, X) && Flat(q, Z) {
      assert LandsAt(q, q[ky], 0, 0, 0);
    } else {
      assert LandsAt(q, q[kz], 0, 0, 0);
    }
  }

  lemma SingleRowRender(row: string)
    ensures Render([[row]]) == row
  {
    assert LayerTexts([[row]]) == [LayerText([row])];
  }

  /** In a one-row box of three cells a rendering is the row itself, and
      each of its cells is `.` or the label of one of the cubes. */
  lemma CandidateCells(q: seq<Point>, f: Frame)
    requires |q| > 0 && f.w == 3 && f.h == 1 && f.d == 1
    ensures var grid := PositionsToGrid(q, 3, 1, 1);
      && Candidate(q, f) == grid[0][0] && |grid[0][0]| == 3
      && forall x :: 0 <= x < 3 ==> grid[0][0][x] == '.' || exists i :: 0 <= i < |q| && grid[0][0][x] == q[i].piece
  {
    CandidateRow(q, f);
  }

  lemma CandidateRow(q: seq<Point>, f: Frame)
    requires |q| > 0 && f.w == 3 && f.h == 1 && f.d == 1
    ensures Candidate(q, f) == PositionsToGrid(q, 3, 1, 1)[0][0]
  {
    var grid := PositionsToGrid(q, 3, 1, 1);
    assert |grid| == 1 && |grid[0]| == 1;
    assert grid == [grid[0]] && grid[0] == [grid[0][0]];
    SingleRowRender(grid[0][0]);
  }

  /** Every accepted rendering of a straight board is at least `m..` when
      `m` is its least label. */
  lemma CandidateAbove(q: seq<Point>, f: Frame, m: char)
    requires |q| > 0 && OnAxisLine(q) && f.w == 3 && f.h == 1 && f.d == 1
    requires '.' < m && forall i :: 0 <= i < |q| ==> m <= q[i].piece
    ensures LexLe([m, '.', '.'], Candidate(q, f))
  {
    CandidateCells(q, f);
    OriginTaken(q);
    var s := Candidate(q, f);
    assert s[0] != '.';
    assert '.' <= s[1] && '.' <= s[2];
    assert m <= s[0];
    if s[0] == m && s[1] == '.' {
      assert LexLe(['.'], s[2..]);
    }
  }

  /** The board `[p0, p1, p2]` as the normaliser reads it. */
  lemma BarRead(p0: char, p1: char, p2: char)
    requires Label(p0) && Label(p1) && Label(p2)
    ensures SolutionGrid([p0, p1, p2]) == [[[p0, p1, p2]]]
    ensures SolutionPositions([p0, p1, p2]) == Some(Bar(p0, p1, p2))
  {
    var row := [p0, p1, p2];
    assert SolidRow(row) by {
      assert forall x :: 0 <= x < 3 ==> Label(row[x]);
    }
    OneRowGrid(row);
    RowRead(p0, p1, p2);
    OneRowBoard(row, Bar(p0, p1, p2));
  }

  /** A solid board of one three-cell row yields the cubes of that row. */
  lemma OneRowBoard(row: string, q: seq<Point>)
    requires SolidRow(row) && |row| == 3
    requires RowPoints(row, 3, 0, 0) == q
    ensures SolutionPositions(row) == Some(q)
  {
    OneRowGrid(row);
    OneRowPositions(row);
  }

  /** A board of one row without whitespace is read as that row. */
  lemma OneRowGrid(row: string)
    requires SolidRow(row)
    ensures Strip(row) == row
    ensures SolutionGrid(row) == [[row]]
  {
    OneRowStrip(row);
    SolidRowTidy(row);
    TidyUnbroken(row);
    SplitWhole(row, "\n\n");
    SplitWhole(row, "\n");
  }

  lemma OneRowStrip(row: string)
    requires SolidRow(row)
    ensures Strip(row) == row
  {
    SolidRowTidy(row);
    StripTrimmed(row);
  }

  lemma OneRowPositions(row: string)
    requires |row| == 3
    ensures GetPiecePositions([[row]], 3, 1) == Some(RowPoints(row, 3, 0, 0))
  {
    var grid := [[row]];
    assert Covers(grid, 3, 1);
    assert LayerPoints([row], 3, 1, 0) == RowPoints(row, 3, 0, 0);
    assert GridPoints(grid, 3, 1, 1) == LayerPoints([row], 3, 1, 0);
  }

  lemma RowRead(p0: char, p1: char, p2: char)
    requires p0 != '.' && p1 != '.' && p2 != '.'
    ensures RowPoints([p0, p1, p2], 3, 0, 0) == Bar(p0, p1, p2)
  {
    assert RowPoints([p0, p1, p2], 1, 0, 0) == [Point(0, 0, 0, p0)];
  }

  /** A one-row board against a one-row figure: accepted when every cell
      rule holds. */
  lemma OneRowAccepts(figure: string, row: string)
    requires SolidRow(figure) && SolidRow(row) && |figure| == |row|
    requires forall x :: 0 <= x < |row| ==> CellAccepted(figure[x], row[x])
    ensures IsValidPlacement(row, Some(figure))
  {
    var original, grid := [[figure]], [[row]];
    assert Solid(original) && Solid(grid) && SameShape(original, grid);
    assert AllCellsAccepted(original, grid);
    ValidOnRendered(original, grid);
    SingleRowRender(figure);
    SingleRowRender(row);
  }

  /** Any row of three valid labels is accepted on the figure. */
  lemma FigureAccepts(row: string)
    requires |row| == 3 && forall x :: 0 <= x < 3 ==> row[x] in ValidPieces
    ensures IsValidPlacement(row, Some(Figure))
  {
    assert SolidRow(Figure) && forall x :: 0 <= x < 3 ==> Figure[x] == '*';
    assert SolidRow(row) by {
      assert forall x :: 0 <= x < 3 ==> !IsSpace(row[x]);
    }
    OneRowAccepts(Figure, row);
  }

  /** A quarter turn about y stands the bar on end: only the cube that was
      last lands inside the one-row box, and the truncated rendering is
      accepted. */
  lemma TruncatedHit(p0: char, p1: char, p2: char, fitOnly: bool)
    requires Label(p0) && Label(p1) && Label(p2)
    ensures var f := Frame(3, 1, 1, Some(Figure), fitOnly);
      && Candidate(Orient(Bar(p0, p1, p2), 0, 1, 0), f) == [p2, '.', '.']
      && (!fitOnly ==> Hit(f, Orient(Bar(p0, p1, p2), 0, 1, 0), [p2, '.', '.']))
  {
    var f := Frame(3, 1, 1, Some(Figure), fitOnly);
    var q := Orient(Bar(p0, p1, p2), 0, 1, 0);
    var row := [p2, '.', '.'];
    assert Candidate(q, f) == row by {
      StoodUp(p0, p1, p2);
      StandingRow(q, p0, p1, p2, f);
    }
    assert IsValidPlacement(row, Some(Figure)) by {
      FigureAccepts(row);
    }
  }

  /** The bar stood on end in a one-row box: only its lowest cube, the
      last, is inside. */
  lemma StandingRow(q: seq<Point>, p0: char, p1: char, p2: char, f: Frame)
    requires q == [Point(0, 0, 0, p0), Point(0, 0, -1, p1), Point(0, 0, -2, p2)]
    requires Low(q, X) == 0 && Low(q, Y) == 0 && Low(q, Z) == -2
    requires f.w == 3 && f.h == 1 && f.d == 1
    ensures Candidate(q, f) == [p2, '.', '.']
  {
    CandidateCells(q, f);
    var grid := PositionsToGrid(q, 3, 1, 1);
    assert LandsAt(q, q[2], 0, 0, 0);
    assert grid[0][0][0] == p2;
    assert grid[0][0][1] == '.';
    assert grid[0][0][2] == '.';
    assert grid[0][0] == [p2, '.', '.'];
  }

  /** A quarter turn about y sends the cube at `x = k` to `z = -k`. */
  lemma StoodUp(p0: char, p1: char, p2: char)
    ensures var q := Orient(Bar(p0, p1, p2), 0, 1, 0);
      && q == [Point(0, 0, 0, p0), Point(0, 0, -1, p1), Point(0, 0, -2, p2)]
      && Low(q, X) == 0 && Low(q, Y) == 0 && Low(q, Z) == -2
  {
    var ps := Bar(p0, p1, p2);
    assert RotN(ps, Z, 0) == ps;
    assert RotN(ps, Y, 1) == RotatePositions(ps, Y);
    var q := RotatePositions(ps, Y);
    assert q == [Point(0, 0, 0, p0), Point(0, 0, -1, p1), Point(0, 0, -2, p2)];
    assert RotN(q, X, 0) == q;
    assert Orient(ps, 0, 1, 0) == q;
    assert q[2].Get(Z) == -2;
  }

  /** The normaliser as written maps the straight board `[p0, p1, p2]`,
      whose last label is its least, to the truncated `[p2, '.', '.']`:
      two of its three cubes are lost. */
  lemma AsWrittenTruncates(p0: char, p1: char, p2: char)
    requires Label(p0) && Label(p1) && Label(p2)
    requires p2 <= p0 && p2 <= p1
    ensures NormalizeAsWritten([p0, p1, p2], Some(Figure)) == [p2, '.', '.']
  {
    var solution := [p0, p1, p2];
    var ps := Bar(p0, p1, p2);
    BarRead(p0, p1, p2);
    var f := FrameOf(solution, Some(Figure), false);
    assert f == Frame(3, 1, 1, Some(Figure), false);
    TruncatedHit(p0, p1, p2, false);
    NormalizeIsLeast(solution, Some(Figure), false, ps, 0, 1, 0);
    var r := NormalizeAsWritten(solution, Some(Figure));
    var a, b, c :| 0 <= a < 4 && 0 <= b < 4 && 0 <= c < 4 && Hit(f, Orient(ps, a, b, c), r);
    BarAbove(p0, p1, p2, f, a, b, c);
    LexLeAntisym(r, [p2, '.', '.']);
  }

  /** Every orientation of the straight board renders to at least
      `[p2, '.', '.']` when `p2` is its least label. */
  lemma BarAbove(p0: char, p1: char, p2: char, f: Frame, a: nat, b: nat, c: nat)
    requires Label(p0) && Label(p1) && Label(p2) && p2 <= p0 && p2 <= p1
    requires f.w == 3 && f.h == 1 && f.d == 1
    ensures LexLe([p2, '.', '.'], Candidate(Orient(Bar(p0, p1, p2), a, b, c), f))
  {
    var ps := Bar(p0, p1, p2);
    assert OnAxisLine(ps) by {
      assert Flat(ps, Y) && Flat(ps, Z);
    }
    OrientLine(ps, a, b, c);
    CandidateAbove(Orient(ps, a, b, c), f, p2);
  }

  /** A straight board of labels is accepted, and the normaliser as
      written truncates it. */
  lemma BarTruncates(p0: char, p1: char, p2: char)
    requires Label(p0) && Label(p1) && Label(p2) && p2 <= p0 && p2 <= p1
    ensures IsValidPlacement([p0, p1, p2], Some(Figure))
    ensures NormalizeAsWritten([p0, p1, p2], Some(Figure)) == [p2, '.', '.']
  {
    FigureAccepts([p0, p1, p2]);
    AsWrittenTruncates(p0, p1, p2);
  }

  /** The discrepancy: `tlc` and `tnc` are different accepted boards for
      the figure, yet the normaliser as written gives them one normal form,
      so the second would be reported as already known. (The boards are
      parameters fixed by the precondition, so that the verifier reasons
      from the lemmas above instead of evaluating the sweep.) */
  lemma AsWrittenCollides(tlc: string, tnc: string)
    requires tlc == "tlc" && tnc == "tnc"
    ensures tlc != tnc
    ensures IsValidPlacement(tlc, Some(Figure)) && IsValidPlacement(tnc, Some(Figure))
    ensures NormalizeAsWritten(tlc, Some(Figure)) == "c.."
    ensures NormalizeAsWritten(tnc, Some(Figure)) == "c.."
  {
    assert tlc == ['t', 'l', 'c'] && tnc == ['t', 'n', 'c'];
    assert tlc[1] != tnc[1];
    BarTruncates('t', 'l', 'c');
    BarTruncates('t', 'n', 'c');
  }

  /** The corrected normaliser keeps the two boards apart: the normal form
      of `tlc` still holds its `l`, and no normal form of `tnc` can. */
  lemma CorrectedSeparates(tlc: string, tnc: string)
    requires tlc == "tlc" && tnc == "tnc"
    ensures NormalizeFitting(tlc, Some(Figure)) != NormalizeFitting(tnc, Some(Figure))
  {
    assert tlc == ['t', 'l', 'c'] && tnc == ['t', 'n', 'c'];
    BarKeepsMiddle('t', 'l', 'c', Some(Figure));
    BarLacks('t', 'n', 'c', 'l', Some(Figure));
  }

  /** The corrected normal form of a straight board holds its middle label. */
  lemma BarKeepsMiddle(p0: char, p1: char, p2: char, shapeFile: Option<string>)
    requires Label(p0) && Label(p1) && Label(p2)
    ensures p1 in NormalizeFitting([p0, p1, p2], shapeFile)
  {
    BarRead(p0, p1, p2);
    NormalFormKeepsLabels([p0, p1, p2], shapeFile, Bar(p0, p1, p2), 1);
  }

  /** No normal form of a straight board holds a label the board lacks. */
  lemma BarLacks(p0: char, p1: char, p2: char, l: char, shapeFile: Option<string>)
    requires Label(p0) && Label(p1) && Label(p2) && Label(l)
    requires l != p0 && l != p1 && l != p2
    ensures l !in NormalizeFitting([p0, p1, p2], shapeFile)
  {
    var row := [p0, p1, p2];
    assert forall x :: 0 <= x < 3 ==> Label(row[x]);
    RowLacks(row, l, shapeFile);
  }

  /** No normal form of a one-row board holds a label the row lacks. */
  lemma RowLacks(row: string, l: char, shapeFile: Option<string>)
    requires SolidRow(row) && Label(l) && l !in row
    ensures l !in NormalizeFitting(row, shapeFile)
  {
    assert l !in Strip(row) by {
      OneRowStrip(row);
    }
    assert l != '.' && l != '\n';
    NormalFormLacks(row, shapeFile, l);
  }
}
