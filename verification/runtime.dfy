/** Values shared by every module of the model: optional values, and the
    exceptions that the Python code raises or lets propagate. */
module Runtime {

  datatype Option<+T> = None | Some(value: T)

  /** The exceptions the modelled code raises or re-raises. */
  datatype Error =
    | AttributeError(name: string)          // getattr on a name the model class does not have
    | KeyError(key: string)                 // a missing key in a decoded claims dict
    | IntegrityError                        // a violated unique or foreign-key constraint
    | DatabaseError                         // any other failure the storage engine reports
    | HttpException(status: int, detail: string)

  /** The result of a Python call: either it returned a value or it raised. */
  datatype Outcome<+T> = Returned(value: T) | Raised(error: Error)

  /** Two calls that both return, one result followed by the other making
      up what a third call returns. */
  predicate Tiles<T(==)>(first: Outcome<seq<T>>, second: Outcome<seq<T>>, both: Outcome<seq<T>>) {
    first.Returned? && second.Returned? && both.Returned? && first.value + second.value == both.value
  }
}
