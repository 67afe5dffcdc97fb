/** Types shared by every module of the player. */
module Basics {

  /** The optional value used wherever the player has a `null`, an absent value or a `NaN`. */
  datatype Option<+T> = None | Some(value: T)

  /** An element of a `Uint8Array`. */
  newtype byte = x: int | 0 <= x < 256
}
