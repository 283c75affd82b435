/** What all other modules share: an optional value, and the set of the elements of a list. */
module Collections {

  datatype Option<T> = None | Some(value: T)

  function Elements<T(==)>(s: seq<T>): set<T> {
    set x | x in s
  }
}
