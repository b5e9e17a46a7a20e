/** The optional value used wherever the handler's collaborators answer "maybe". */
module Wrappers {

  /** `None` stands for a C# `null` (or a failed `Try...` call), `Some` for a value. */
  datatype Option<+T> = None | Some(value: T)
}
