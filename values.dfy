/**
 * The JavaScript values and failures that cross the public boundary of the
 * delivery core. Only the distinctions the core tests for are kept: whether a
 * value is a string, whether it is a function, and whether it is `undefined`.
 */
module Values {

  /** A dynamically typed argument. Functions are opaque handles compared by
      identity; `Other` stands for every remaining value (numbers, booleans,
      `null`, plain objects), which the core only ever rejects or passes on. */
  datatype Value =
    | Undefined
    | Str(text: string)
    | Func(handle: nat)
    | Other(tag: nat)

  /** The conditions under which the core throws. */
  datatype Error =
    | NotAString(param: string)
    | NotAFunction(param: string)
    | NoSuchConnection(id: int)
    | NoSuchFactory(name: string)

  /** The outcome of an operation that returns nothing but may throw. */
  datatype Outcome = Pass | Fail(error: Error)

  /** The outcome of an operation that returns a value but may throw. */
  datatype Result<+T> = Success(value: T) | Failure(error: Error)

  datatype Option<+T> = None | Some(value: T)
}
