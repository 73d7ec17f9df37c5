/** The fatal exits of the evaluator, as values. */
module Errors {

  /** Each fatal exit of resolution, kept distinct so that callers can tell them apart. */
  datatype ResolveError =
      /** The function side of an application is a bare local. */
    | FunctionNotFree
      /** The body left after substitution is a bare local. */
    | BodyNotFree
      /** Unfolding reached a declaration whose body is an application. */
    | MalformedDeclaration
      /** Unfolding did not reach an abstraction within the iteration bound. */
    | ExpansionLimitReached

  datatype Result<+T> = Success(value: T) | Failure(error: ResolveError)
}
