/** The nullable values of the game board (`null` in the component's state). */
module Wrappers {

  datatype Option<+T> = None | Some(value: T)
}
