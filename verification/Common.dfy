/** Types that several parts share. */
module Common {

  datatype Option<T> = None | Some(value: T)

  type Point = (real, real)

  /** How a call to something outside goes: it works, or raises before or after its effect. */
  datatype Call = Works | RaisesBefore | RaisesAfter
}
