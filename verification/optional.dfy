/** The optional-value datatype used for Python operations that may raise. */
module Optional {

  /** `None` stands for "the Python operation raised"; `Some` carries its value. */
  datatype Option<+T> = None | Some(value: T)
}
