/** Failure values of dataset preparation and the wrappers that carry them. */
module Errors {

  /** The ways preparation or loading can fail. */
  datatype Error =
    /** A (sex, income) bucket holds fewer records than its fixed subsample size
        (numpy refuses to draw a larger sample than the population without replacement). */
    | InsufficientData(env: nat, available: nat, requested: nat)
    /** The companion dataset's prepared test split does not exist. */
    | MissingTestData
    /** The split name given to the dataset is not one it knows. */
    | UnknownEnv(name: string)

  datatype Option<T> = None | Some(value: T)

  datatype Result<T> = Success(value: T) | Failure(error: Error) {
    predicate IsFailure() { Failure? }

    function PropagateFailure<U>(): Result<U>
      requires Failure?
    {
      Failure(error)
    }

    function Extract(): T
      requires Success?
    {
      value
    }
  }
}
