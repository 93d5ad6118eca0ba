/**
 * The Express error handler: the status an error carries (500 when it carries
 * none), and the error's message and stack shown only in development.
 */
module ErrorHandler {
  import opened Js

  const MsgGeneric := "Algo salió mal en el servidor"
  const Development := "development"

  /** The fields of a thrown error the handler reads; `statusCode` None is undefined. */
  datatype AppError = AppError(statusCode: Option<int>, message: Field, stack: Field)

  /** The JSON body: a message, and the stack when it is shown. An undefined message
      is left out of the JSON and kept here as None. */
  datatype ErrorBody = ErrorBody(message: Field, stack: Option<Field>)

  datatype ErrorReply = ErrorReply(status: int, body: ErrorBody)

  /** `err.statusCode || 500`: an undefined or zero status becomes 500. */
  function StatusOf(err: AppError): (s: int)
    ensures s != 0
    ensures err.statusCode.Some? && err.statusCode.value != 0 ==> s == err.statusCode.value
    ensures err.statusCode.None? || err.statusCode.value == 0 ==> s == 500
  {
    if err.statusCode.Some? && err.statusCode.value != 0 then err.statusCode.value else 500
  }

  /** The handler's reply under `NODE_ENV = nodeEnv`: outside development the message is
      generic and no stack is sent; in development both come from the error. */
  function Handle(err: AppError, nodeEnv: Field): (r: ErrorReply)
    ensures r.status == StatusOf(err)
    ensures r.body.stack.Some? <==> nodeEnv == Some(Development)
    ensures nodeEnv == Some(Development) ==> r.body == ErrorBody(err.message, Some(err.stack))
    ensures nodeEnv != Some(Development) ==> r.body == ErrorBody(Some(MsgGeneric), None)
  {
    var dev := nodeEnv == Some(Development);
    var body := ErrorBody(if dev then err.message else Some(MsgGeneric), None);
    ErrorReply(StatusOf(err), if dev then body.(stack := Some(err.stack)) else body)
  }

  /** Outside development nothing of the error but its status reaches the client: two
      errors with the same status get the same reply. */
  lemma ProductionHidesDetails(a: AppError, b: AppError, nodeEnv: Field)
    requires nodeEnv != Some(Development) && StatusOf(a) == StatusOf(b)
    ensures Handle(a, nodeEnv) == Handle(b, nodeEnv)
  {
  }
}
