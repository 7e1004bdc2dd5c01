/**
 * The single error boundary of the HTTP layer (server/src/middleware/errorHandler.ts):
 * every error a handler throws, or an async handler rejects with, is turned into the
 * envelope `{ success: false, statusCode, message, stack? }`.
 */
module ErrorHandler {
  import opened Js

  const DefaultStatus := 500
  const DefaultMessage := "Internal Server Error"

  /** The JSON body of an error response; `stack` only appears in development. */
  datatype ErrorBody = ErrorBody(success: bool, statusCode: int, message: string, stack: Option<string>)

  /** The HTTP status and the body sent. */
  datatype ErrorResponse = ErrorResponse(status: int, body: ErrorBody)

  /** `errorHandler(err, ...)`, with `err.stack` and `process.env.NODE_ENV` as parameters. */
  function HandleError(err: Thrown, stack: string, nodeEnv: Option<string>): (r: ErrorResponse)
    ensures !r.body.success
    ensures r.body.statusCode == r.status
    ensures TruthyNum(err.statusCode) ==> r.status == err.statusCode.value
    ensures !TruthyNum(err.statusCode) ==> r.status == DefaultStatus
    ensures err.message != "" ==> r.body.message == err.message
    ensures err.message == "" ==> r.body.message == DefaultMessage
    ensures r.body.stack.Some? <==> nodeEnv == Some("development")
    ensures r.body.stack.Some? ==> r.body.stack.value == stack
  {
    var status := if TruthyNum(err.statusCode) then err.statusCode.value else DefaultStatus;
    var message := if err.message != "" then err.message else DefaultMessage;
    var shown := if nodeEnv == Some("development") then Some(stack) else None;
    ErrorResponse(status, ErrorBody(false, status, message, shown))
  }

  /** What reaches the client once an async handler settles: the response the handler
    * sent itself, or the error handler's envelope for the rejection passed to `next`. */
  datatype Reply<+T> = Responded(value: T) | Errored(response: ErrorResponse)

  /** `asyncHandler(fn)`: a rejection of `fn` is forwarded to `next`, hence to `HandleError`. */
  function AsyncHandler<T>(settled: Outcome<T>, stack: string, nodeEnv: Option<string>): (r: Reply<T>)
    ensures settled.Ok? <==> r.Responded?
    ensures settled.Ok? ==> r.value == settled.value
    ensures settled.Throw? ==> r.response == HandleError(settled.error, stack, nodeEnv)
  {
    match settled
    case Ok(v) => Responded(v)
    case Throw(e) => Errored(HandleError(e, stack, nodeEnv))
  }

  /** A handler's own status survives the boundary; an error from the store, which carries
    * no status, reaches the client as a 500; the body never reports success. */
  lemma ThrownStatusReachesClient(status: int, message: string, stack: string, nodeEnv: Option<string>)
    requires status != 0
    ensures AsyncHandler<()>(Throw(Raise(status, message)), stack, nodeEnv).response.status == status
    ensures AsyncHandler<()>(Throw(StoreError(message)), stack, nodeEnv).response.status == DefaultStatus
  {
  }
}
