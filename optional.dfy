/** Python's `X | None`, for regex capture groups that may be absent. */
module Optional {

  datatype Option<+T> = None | Some(value: T)
}
