/** Java's null and the exceptions the modelled code raises, as values. */
module Outcomes {

  /** A reference that may be null. */
  datatype Option<T> = None | Some(value: T)

  /** The exceptions that can leave a modelled Java method. */
  datatype Exc =
    | IOException            // java.io.IOException, SocketTimeoutException included
    | NoSuchElement          // java.util.NoSuchElementException
    | InputMismatch          // java.util.InputMismatchException, a NoSuchElementException
    | NumberFormat           // java.lang.NumberFormatException
    | NullPointer            // java.lang.NullPointerException
    | IndexOutOfBounds       // java.lang.ArrayIndexOutOfBoundsException
    | NegativeArraySize      // java.lang.NegativeArraySizeException
    | SeatsRead(code: string, extraInfo: Option<string>)  // Model.SeatsReadException (server)

  /** Java's `catch (NumberFormatException e)` also catches a SeatsReadException. */
  predicate IsNumberFormat(e: Exc) {
    e.NumberFormat? || e.SeatsRead?
  }

  /** Java's `catch (NoSuchElementException e)` also catches an InputMismatchException. */
  predicate IsNoSuchElement(e: Exc) {
    e.NoSuchElement? || e.InputMismatch?
  }

  /** Only IOException is checked; the others propagate through `catch (IOException e)`. */
  predicate IsChecked(e: Exc) {
    e.IOException?
  }

  /** The normal result of a Java call, or the exception it threw. */
  datatype Result<T> = Ok(value: T) | Err(exc: Exc) {
    predicate IsFailure() { Err? }
    function PropagateFailure<U>(): Result<U>
      requires Err?
    {
      Err(exc)
    }
    function Extract(): T
      requires Ok?
    {
      value
    }
  }
}
