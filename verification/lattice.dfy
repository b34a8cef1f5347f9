/** Integer lattice coordinates and grid dimensions, used by the front end
    (where a cell is keyed by the string "x,y,z") and by the back end (where
    it is a tuple). Both keys are injective on integer triples, so a cell is
    modelled as the triple itself. */
module Lattice {

  datatype Cell = Cell(x: int, y: int, z: int)

  datatype Dims = Dims(width: nat, height: nat, depth: nat)

  /** The cell lies in the box `[0, width) x [0, height) x [0, depth)`. */
  predicate Contains(d: Dims, c: Cell) {
    0 <= c.x < d.width && 0 <= c.y < d.height && 0 <= c.z < d.depth
  }
}
