/** Java's `null` and its escaping exceptions, as values. */
module Wrappers {

  /** A possibly-absent value: `None` stands for Java's `null`. */
  datatype Option<+T> = None | Some(value: T) {
    function GetOr(default: T): T {
      match this
      case Some(v) => v
      case None => default
    }
  }

  /** The Java exceptions that can escape from the modelled code. */
  datatype JavaException =
    | NumberFormat              // Integer.valueOf / Long.parseLong on a non-number
    | UnsupportedOperation      // Result.put("value", ...) on a constructed Result
    | IndexOutOfBounds          // List.get / subList with a bad index
    | StringIndexOutOfBounds    // String.substring with begin > end
    | ArrayIndexOutOfBounds     // an array read past its end
    | IllegalArgument           // List.subList with a negative end
    | NullPointer               // a method called on null

  /** The outcome of a Java call that either returns or throws. */
  datatype Try<+T> = Ok(value: T) | Throws(exception: JavaException) {
    predicate IsFailure() { Throws? }
    function PropagateFailure<U>(): Try<U>
      requires Throws?
    {
      Throws(exception)
    }
    function Extract(): T
      requires Ok?
    {
      value
    }
  }
}
