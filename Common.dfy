/** Values shared by every module of the model. */
module Common {

  /** A Java reference that may be null, or a lookup that may find nothing. */
  datatype Option<+T> = None | Some(value: T)

  /** The range of a Java `int`. */
  const MIN_INT: int := -0x8000_0000
  const MAX_INT: int := 0x7fff_ffff

  predicate InInt32(x: int) {
    MIN_INT <= x <= MAX_INT
  }
}
