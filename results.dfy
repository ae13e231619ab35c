/** Option and Result types shared by the model of the webhook handler. */
module Results {

  datatype Option<+T> = None | Some(value: T)

  /** What makes an invocation of the handler fail. In the source both are
      JavaScript TypeErrors thrown by reading a property of `undefined`/`null`. */
  datatype Failure =
    | MissingEpicState(name: string)     // no epic state carries this exact name
    | ChangesNotReadable(actionId: int)  // a story update whose `changes` is null or undefined

  datatype Result<+R> = Ok(value: R) | Err(error: Failure) {
    predicate IsFailure() { Err? }

    function PropagateFailure<U>(): Result<U>
      requires Err?
    {
      Err(error)
    }

    function Extract(): R
      requires Ok?
    {
      value
    }
  }
}
