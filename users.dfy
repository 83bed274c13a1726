/** The stored entity: an immutable user record, and the optional result of a lookup. */
module Users {

  /** A user record, id and name. It is a value: replacing a record means storing a new value. */
  datatype User = User(id: int, name: string)

  /** The result of `findById`: absence is a normal outcome, not an error. */
  datatype Option<T> = None | Some(value: T)
}
