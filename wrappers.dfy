/** The optional value used for the game's nullable references (`firstCard`, `secondCard`). */
module Wrappers {

  datatype Option<+T> = None | Some(value: T)
}
