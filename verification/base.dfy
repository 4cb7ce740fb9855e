/** Failure-compatible wrappers shared by the whole model.

    The converter reports trouble in two ways: a missing value is replaced by a
    default (modelled with `Option`), and an uncaught Python exception stops the
    run (modelled with `Result` and the `Fault` that names the exception).
 */
module Base {

  datatype Option<+T> = None | Some(value: T) {

    /** The wrapped value, or `default` when there is none. */
    function GetOr(default: T): T {
      match this
      case Some(v) => v
      case None => default
    }
  }

  /** The uncaught exceptions of the converter that the model keeps. */
  datatype Fault =
    | UnknownPrefix(prefix: string)    // KeyError on the namespace table in the field accessor
    | MissingElement(tag: string)      // AttributeError: a channel element that is not there
    | MissingField(field: string)      // KeyError on an item record
    | NotAnInteger(text: string)       // ValueError from int() on the item id
    | BadDate(text: string)            // ValueError from strptime on post_date, once post_date_gmt failed too
    | MixedUrlTypes(src: string)       // TypeError from mixing text and bytes in the image download loop

  datatype Result<+T> = Success(value: T) | Failure(fault: Fault) {

    predicate IsFailure() {
      Failure?
    }

    function PropagateFailure<U>(): Result<U>
      requires Failure?
    {
      Failure(fault)
    }

    function Extract(): T
      requires Success?
    {
      value
    }
  }
}
