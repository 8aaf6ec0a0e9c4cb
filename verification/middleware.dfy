/** `validateMiddleware` (src/middleware/validate.middleware.ts): a schema's
    parse result becomes either a call to `next` or a 400 envelope. Its output
    is a function of the parse result alone; the request body is not touched. */
module ValidateMiddleware {
  import opened Zod

  const ValidationError := "Validation Error"

  datatype FieldError = FieldError(path: seq<string>, message: string)

  datatype Outcome =
    | CallNext
    | Respond(status: int, success: bool, message: string, errors: seq<FieldError>)

  /** `error.errors.map(e => ({ path: e.path, message: e.message }))`. */
  function FieldErrors(issues: seq<Issue>): (errors: seq<FieldError>)
    ensures |errors| == |issues|
    ensures forall i :: 0 <= i < |issues| ==> errors[i].path == issues[i].path && errors[i].message == issues[i].message
  {
    if issues == [] then [] else [FieldError(issues[0].path, issues[0].message)] + FieldErrors(issues[1..])
  }

  function Validate(result: ParseResult): (o: Outcome)
    ensures result.Parsed? <==> o == CallNext
    ensures result.ParseFailed? ==>
      && o.Respond? && o.status == 400 && !o.success && o.message == ValidationError
      && |o.errors| == |result.issues|
      && forall i :: 0 <= i < |result.issues| ==>
           o.errors[i] == FieldError(result.issues[i].path, result.issues[i].message)
  {
    match result
    case Parsed => CallNext
    case ParseFailed(issues) => Respond(400, false, ValidationError, FieldErrors(issues))
  }
}

/** `errorMiddleware` (src/middleware/error.middleware.ts): any error handed to
    `next` becomes a JSON envelope with `success: false`. `nodeEnv` is
    process.env.NODE_ENV and `now` is Date.now(). */
module ErrorMiddleware {
  import opened Common

  const DefaultMessage := "Internal Server Error"

  datatype ErrorEnvelope = ErrorEnvelope(success: bool, message: string, timestamp: nat, stack: Option<string>)

  datatype ErrorResponse = ErrorResponse(status: int, body: ErrorEnvelope)

  /** JavaScript truthiness of an optional number. */
  predicate TruthyNumber(n: Option<int>) {
    n.Some? && n.value != 0
  }

  /** Status is `statusCode` when truthy, else 500; message is the error's own
      when non-empty, else the default; the stack is included (when the error
      has one) unless NODE_ENV is "production". */
  function HandleError(err: AppError, nodeEnv: Option<string>, now: nat): (r: ErrorResponse)
    ensures TruthyNumber(err.statusCode) ==> r.status == err.statusCode.value
    ensures !TruthyNumber(err.statusCode) ==> r.status == 500
    ensures err.message != "" ==> r.body.message == err.message
    ensures err.message == "" ==> r.body.message == DefaultMessage
    ensures !r.body.success && r.body.timestamp == now
    ensures nodeEnv == Some("production") ==> r.body.stack.None?
    ensures nodeEnv != Some("production") ==> r.body.stack == err.stack
  {
    var status := if TruthyNumber(err.statusCode) then err.statusCode.value else 500;
    var message := if err.message != "" then err.message else DefaultMessage;
    var stack := if nodeEnv != Some("production") then err.stack else None;
    ErrorResponse(status, ErrorEnvelope(false, message, now, stack))
  }

  /** An error raised without a status (a validation or duplicate-key error from
      the store) reaches the client as a 500 that keeps the error's message. */
  lemma UnlabelledErrorIs500(message: string, nodeEnv: Option<string>, now: nat)
    requires message != ""
    ensures HandleError(Raise(None, message), nodeEnv, now).status == 500
    ensures HandleError(Raise(None, message), nodeEnv, now).body.message == message
  {
  }
}
