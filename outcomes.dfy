/** Option and Result values, and the errors the generator can raise. */
module Outcomes {

  datatype Option<+T> = None | Some(value: T)

  /** Why a run stops without producing output. */
  datatype Error =
      /** `typename, *parts = s.split()` on a line with no token at all. */
    | NothingToUnpack(line: string)
      /** The `assert` of clean_struct: no token after the type, or no name survives. */
    | MalformedField(line: string)

  datatype Result<+T> = Success(value: T) | Failure(error: Error)
}
