/** Result and error types shared by the whole RFLink protocol engine. */
module Common {

  /** The exceptions the engine raises, one constructor per kind the caller can tell apart. */
  datatype Error =
    | NotImp                  // RfLinkNotImpException: no implementation / transmission refused
    | LinkError               // RfLinkException: a family object could not be built
    | NumberFormat            // NumberFormatException from Integer.parseInt
    | IndexOutOfBounds        // ArrayIndexOutOfBounds / StringIndexOutOfBounds
    | IllegalArgument         // IllegalArgumentException (null listener, empty range, bad percent)
    | NullPointer             // NullPointerException (a colour command on a missing colour)
    | IOError                 // IOException from the connector while transmitting

  datatype Option<+T> = None | Some(value: T)

  datatype Result<+T> = Ok(value: T) | Err(error: Error) {
    predicate IsFailure() { Err? }
    function PropagateFailure<U>(): Result<U>
      requires Err?
    {
      Err(error)
    }
    function Extract(): T
      requires Ok?
    {
      value
    }
  }

  /** The outcome of a void Java method that may throw. */
  datatype Outcome = Pass | Fail(error: Error)

  /** How a computation that may throw ends, once its value is dropped. */
  function OutcomeOf<T>(r: Result<T>): (o: Outcome)
    ensures o.Pass? <==> r.Ok?
    ensures r.Err? ==> o == Fail(r.error)
  {
    if r.Err? then Fail(r.error) else Pass
  }
}
