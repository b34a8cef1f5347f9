/** The front end's placement model (frontend/js/pieceManager.js): at most
    one placed instance per piece id, a single selection, integer moves
    snapped by rounding, and rotation in quarter turns. Meshes, materials,
    highlighting and the Euler transform handed to the renderer are left to
    the rendering layer; only the state they are built from is modelled. */
module PieceManager {
  import opened Common

  /** A catalogue piece id. The catalogue's ids are single characters, the
      labels the back end's validator accepts. */
  type PieceId = char

  /** One value per axis: a placed group's position (reals, so that
      `Math.round` is modelled) and its `userData.rotation` (degrees). */
  datatype Triple<T> = Triple(x: T, y: T, z: T) {
    function Get(a: Axis): T {
      match a
      case X => x
      case Y => y
      case Z => z
    }

    function With(a: Axis, v: T): (p: Triple<T>)
      ensures p.Get(a) == v
      ensures forall b :: b != a ==> p.Get(b) == Get(b)
    {
      match a
      case X => this.(x := v)
      case Y => this.(y := v)
      case Z => this.(z := v)
    }
  }

  type Position = Triple<real>

  type Rotation = Triple<int>

  datatype Instance = Instance(pieceId: PieceId, position: Position, rotation: Rotation)

  /** `placedPieces` and `selectedPiece`. The selection is the placed group
      itself in the program; here it is that group's id. */
  datatype State = State(placed: map<PieceId, Instance>, selected: Option<PieceId>)

  /** `Math.floor(3 / 2)`: new pieces start at the centre of a fixed 3x3x3
      reference lattice, whatever grid is loaded. */
  const CenterPos: int := 1

  /** `Math.round`: the nearest integer, a half rounded up. */
  function Round(v: real): (r: int)
    ensures r as real - 0.5 <= v < r as real + 0.5
  {
    (v + 0.5).Floor
  }

  predicate IsInteger(v: real) {
    v.Floor as real == v
  }

  /** JavaScript's `a % 360`: the remainder carries the sign of the
      dividend, unlike Dafny's `%`. */
  function JsRem360(a: int): (r: int)
    ensures a >= 0 ==> 0 <= r < 360
    ensures a < 0 ==> -360 < r <= 0
    ensures -360 < a < 360 ==> r == a
    ensures 360 <= a < 720 ==> r == a - 360
  {
    if a >= 0 then a % 360 else -((-a) % 360)
  }

  /** One of the four quarter-turn angles. */
  predicate RightAngle(deg: int) {
    deg == 0 || deg == 90 || deg == 180 || deg == 270
  }

  predicate Snapped(inst: Instance) {
    && IsInteger(inst.position.x) && IsInteger(inst.position.y) && IsInteger(inst.position.z)
    && RightAngle(inst.rotation.x) && RightAngle(inst.rotation.y) && RightAngle(inst.rotation.z)
  }

  /** The selection, when there is one, is a placed instance. */
  predicate Selectable(s: State) {
    s.selected.Some? ==> s.selected.value in s.placed
  }

  /** The invariant every reachable state keeps: the selection is placed,
      each instance is filed under its own id, and every instance sits on
      integer coordinates at quarter-turn angles. */
  predicate Valid(s: State) {
    && Selectable(s)
    && forall id :: id in s.placed ==> s.placed[id].pieceId == id && Snapped(s.placed[id])
  }

  /** The state after construction and after every reset. */
  function Empty(): (s: State)
    ensures Valid(s) && s.selected.None? && |s.placed| == 0
  {
    State(map[], None)
  }

  /** The instance `createNewPiece` places. */
  function Fresh(id: PieceId): Instance {
    Instance(id, Triple(CenterPos as real, CenterPos as real, CenterPos as real), Triple(0, 0, 0))
  }

  /** `selectExistingPiece`: the placed instance becomes the selection;
      nothing is created or changed. */
  function SelectExistingPiece(s: State, id: PieceId): (r: State)
    requires id in s.placed
    ensures r.placed == s.placed && r.selected == Some(id)
    ensures Valid(s) ==> Valid(r)
  {
    s.(selected := Some(id))
  }

  /** `createNewPiece`: a new instance at the centre with no rotation is
      filed under its id and selected; every other instance is untouched. */
  function CreateNewPiece(s: State, id: PieceId): (r: State)
    ensures r.selected == Some(id)
    ensures r.placed.Keys == s.placed.Keys + {id}
    ensures r.placed[id].position == Triple(1.0, 1.0, 1.0)
    ensures r.placed[id].rotation == Triple(0, 0, 0)
    ensures forall k :: k in s.placed && k != id ==> r.placed[k] == s.placed[k]
    ensures Valid(s) ==> Valid(r)
  {
    State(s.placed[id := Fresh(id)], Some(id))
  }

  /** `selectOrCreatePiece`: a piece already placed is only selected, so no
      id ever has two instances; otherwise a fresh one is created. Either
      way the piece ends up placed and selected. */
  function SelectOrCreatePiece(s: State, id: PieceId): (r: State)
    ensures r.selected == Some(id) && id in r.placed
    ensures id in s.placed ==> r.placed == s.placed
    ensures id !in s.placed ==> r.placed[id].position == Triple(1.0, 1.0, 1.0)
    ensures id !in s.placed ==> r.placed[id].rotation == Triple(0, 0, 0)
    ensures r.placed.Keys == s.placed.Keys + {id}
    ensures forall k :: k in s.placed ==> r.placed[k] == s.placed[k]
    ensures Valid(s) ==> Valid(r)
  {
    if id in s.placed then SelectExistingPiece(s, id) else CreateNewPiece(s, id)
  }

  /** Choosing the same piece twice is the same as choosing it once. */
  lemma SelectOrCreateIdempotent(s: State, id: PieceId)
    ensures SelectOrCreatePiece(SelectOrCreatePiece(s, id), id) == SelectOrCreatePiece(s, id)
  {
  }

  /** `movePiece`: nothing happens without a selection. Otherwise only the
      selected instance's coordinate on `axis` changes: it moves by
      `direction` and is snapped to the nearest integer, which on a valid
      state is the exact sum. */
  function MovePiece(s: State, axis: Axis, direction: int): (r: State)
    requires Selectable(s)
    ensures s.selected.None? ==> r == s
    ensures r.selected == s.selected && r.placed.Keys == s.placed.Keys
    ensures forall k :: k in s.placed && Some(k) != s.selected ==> r.placed[k] == s.placed[k]
    ensures s.selected.Some? ==>
      var before := s.placed[s.selected.value];
      var after := r.placed[s.selected.value];
      && after.pieceId == before.pieceId && after.rotation == before.rotation
      && IsInteger(after.position.Get(axis))
      && after.position.Get(axis) - 0.5 <= before.position.Get(axis) + direction as real < after.position.Get(axis) + 0.5
      && (IsInteger(before.position.Get(axis)) ==>
            after.position.Get(axis) == before.position.Get(axis) + direction as real)
      && (forall b :: b != axis ==> after.position.Get(b) == before.position.Get(b))
    ensures Valid(s) ==> Valid(r)
  {
    match s.selected
    case None => s
    case Some(id) =>
      var inst := s.placed[id];
      var target := inst.position.Get(axis) + direction as real;
      var snapped := Round(target);
      assert IsInteger(inst.position.Get(axis)) ==> snapped == inst.position.Get(axis).Floor + direction;
      var moved := inst.(position := inst.position.With(axis, snapped as real));
      State(s.placed[id := moved], s.selected)
  }

  /** Moving one way and then back restores a valid state exactly. */
  lemma MoveThereAndBack(s: State, axis: Axis, d: int)
    requires Valid(s)
    ensures MovePiece(MovePiece(s, axis, d), axis, -d) == s
  {
    if s.selected.Some? {
      var id := s.selected.value;
      var once := MovePiece(s, axis, d);
      var twice := MovePiece(once, axis, -d);
      assert twice.placed[id].position == s.placed[id].position by {
        assert twice.placed[id].position.Get(axis) == s.placed[id].position.Get(axis);
        PositionExt(twice.placed[id].position, s.placed[id].position);
      }
      assert twice.placed == s.placed;
    }
  }

  lemma PositionExt(p: Position, q: Position)
    requires forall a :: p.Get(a) == q.Get(a)
    ensures p == q
  {
    assert p.Get(X) == q.Get(X) && p.Get(Y) == q.Get(Y) && p.Get(Z) == q.Get(Z);
  }

  /** `rotatePiece`: nothing happens without a selection. Otherwise only the
      selected instance's angle on `axis` changes, by a quarter turn kept
      below a full turn. */
  function RotatePiece(s: State, axis: Axis): (r: State)
    requires Selectable(s)
    ensures s.selected.None? ==> r == s
    ensures r.selected == s.selected && r.placed.Keys == s.placed.Keys
    ensures forall k :: k in s.placed && Some(k) != s.selected ==> r.placed[k] == s.placed[k]
    ensures s.selected.Some? ==>
      var before := s.placed[s.selected.value];
      var after := r.placed[s.selected.value];
      && after.pieceId == before.pieceId && after.position == before.position
      && (0 <= before.rotation.Get(axis) < 360 ==>
            && 0 <= after.rotation.Get(axis) < 360
            && (after.rotation.Get(axis) == before.rotation.Get(axis) + 90
                || after.rotation.Get(axis) == before.rotation.Get(axis) - 270))
      && (forall b :: b != axis ==> after.rotation.Get(b) == before.rotation.Get(b))
    ensures Valid(s) ==> Valid(r)
  {
    match s.selected
    case None => s
    case Some(id) =>
      var inst := s.placed[id];
      var turned := JsRem360(inst.rotation.Get(axis) + 90);
      State(s.placed[id := inst.(rotation := inst.rotation.With(axis, turned))], s.selected)
  }

  /** Four quarter turns about one axis bring a valid state back. */
  lemma RotateFourTimes(s: State, axis: Axis)
    requires Valid(s)
    ensures RotatePiece(RotatePiece(RotatePiece(RotatePiece(s, axis), axis), axis), axis) == s
  {
    if s.selected.Some? {
      var id := s.selected.value;
      var s1 := RotatePiece(s, axis);
      var s2 := RotatePiece(s1, axis);
      var s3 := RotatePiece(s2, axis);
      var s4 := RotatePiece(s3, axis);
      var r0 := s.placed[id].rotation;
      var r4 := s4.placed[id].rotation;
      assert r4.Get(axis) == r0.Get(axis);
      assert r4 == r0 by {
        assert r4.x == r0.x && r4.y == r0.y && r4.z == r0.z by {
          assert forall b :: b != axis ==> r4.Get(b) == r0.Get(b);
        }
      }
      assert s4.placed == s.placed;
    }
  }

  /** `removeSelectedPiece`: nothing happens without a selection; otherwise
      exactly the selected id leaves the map and the selection is cleared. */
  function RemoveSelectedPiece(s: State): (r: State)
    requires Selectable(s)
    ensures r.selected.None?
    ensures s.selected.None? ==> r == s
    ensures s.selected.Some? ==> r.placed.Keys == s.placed.Keys - {s.selected.value}
    ensures forall k :: k in r.placed ==> k in s.placed && r.placed[k] == s.placed[k]
    ensures Valid(s) ==> Valid(r)
  {
    match s.selected
    case None => s
    case Some(id) => State(s.placed - {id}, None)
  }

  /** `updatePiecesPanel`: every instance is removed and the selection
      cleared, whatever the state was. */
  function UpdatePiecesPanel(s: State): (r: State)
    ensures |r.placed| == 0 && r.selected.None?
    ensures Valid(r)
  {
    Empty()
  }
}
