/** Small datatypes shared by every module: JavaScript's `null`/`undefined`
    and Python's `None` become `None`, a raised exception becomes a
    `Failure`, and `Axis` names the three axes. */
module Common {

  datatype Option<+T> = None | Some(value: T)

  datatype Result<+T, +E> = Success(value: T) | Failure(error: E)

  /** The three axes of the figure's box, shared by the front end's piece
      transforms and the back end's rotations. */
  datatype Axis = X | Y | Z
}
