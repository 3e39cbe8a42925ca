/** Small failure-aware wrappers shared by every module of the model. */
module Core {

  /** An optional value; also stands for a Python value that may be `None`. */
  datatype Option<+T> = None | Some(value: T)

  /** What an analysis run produced before the outermost `except` boundary: either the
      detected constructs, or an exception (with its message) that escaped detection,
      description or assembly. */
  datatype Detection<+S> = Detected(scan: S) | Crashed(message: string)

  /** Python truthiness of an optional string: present and non-empty. */
  predicate Truthy(o: Option<string>)
  {
    o.Some? && o.value != ""
  }
}
