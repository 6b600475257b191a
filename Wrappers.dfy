/** The result shapes the framework's operations share: an optional value,
    the exceptions they raise, and a success or failure outcome. */
module Wrappers {

  /** A value that may be null. */
  datatype Option<T> = None | Some(value: T)

  /** The exceptions raised: a null argument, a runtime error, a second
      binding of a service key, and a service key that cannot be resolved. */
  datatype Error = ArgumentNull | Runtime | DuplicateBinding | NotFound

  /** The outcome of an operation that returns nothing. */
  datatype Status = Ok | Fail(error: Error)

  /** The outcome of an operation that returns a value. */
  datatype Result<T> = Success(value: T) | Failure(error: Error)
}

/** Facts about sequences that several modules use. */
module Seqs {

  lemma ConcatAssoc<T>(a: seq<T>, b: seq<T>, c: seq<T>)
    ensures a + (b + c) == (a + b) + c
  {
  }
}
