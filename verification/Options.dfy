/** A value that may be absent, as Python's None stands for it: a cache miss, a limit that is not set, a
    score a hit does not have, a weight list that is not given, or the result of an operation that the
    original ends by raising an exception.
 */
module Options {
  datatype Option<+T> = None | Some(value: T)
}
