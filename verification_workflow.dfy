/**
 * The orchestrator (lambda/verification_workflow.py): invoke the image
 * processor with the request body, stop with its response unless it
 * answered 200, otherwise invoke the registry validator with the decoded
 * body of that response and hand back the validator's answer. The two
 * Lambda invocations are collaborators given as functions, and every
 * invocation made is recorded. The workflow never looks inside the
 * payloads, so their types are parameters: `Q` the request body, `R` the
 * image processor's response, `P` its decoded body, `V` a validator payload.
 */
module VerificationWorkflow {
  import opened Wrappers

  /** What invoking the image processor gives: its response, seen through
      the two things the workflow reads (`statusCode`, None when the key is
      missing, and the decoded `body`, or why decoding failed); or the
      message of the exception the invocation raised. */
  datatype ImageOutcome<R, P> =
    | ImageReturned(result: R, statusCode: Option<int>, body: Result<P, string>)
    | ImageRaised(message: string)

  /** What invoking the validator gives: its decoded payload; a payload with
      the `FunctionError` marker; or the message of an exception raised by
      the invocation or by decoding its payload. */
  datatype ValidatorOutcome<V> =
    | ValidatorReturned(payload: V)
    | ValidatorFunctionError(errorPayload: V)
    | ValidatorRaised(message: string)

  /** The `details` of an error body. */
  datatype Details<V> = NoDetails | PayloadDetails(payload: V) | TextDetails(text: string)

  /** What the workflow returns: one of the two downstream answers, passed
      on unchanged, or a 500 error of its own. */
  datatype Reply<R, V> =
    | ImageReply(result: R)
    | ValidatorReply(payload: V)
    | ErrorReply(statusCode: int, error: string, details: Details<V>)

  /** An invocation of one of the two downstream functions. */
  datatype Invocation<Q, P> = InvokeImageProcessor(request: Q) | InvokeValidator(payload: P)

  const ValidationFailed := "NAFDAC validation failed"
  const InvokeFailed := "Failed to invoke NAFDAC validator"

  /** No stage runs twice: the image processor is invoked first, once, and
      at most one validator invocation follows it. */
  predicate OrderedOnce<Q, P>(calls: seq<Invocation<Q, P>>) {
    && 1 <= |calls| <= 2
    && calls[0].InvokeImageProcessor?
    && (|calls| == 2 ==> calls[1].InvokeValidator?)
  }

  /** `handler`, with the parsed request body and the two invocations as
      parameters; `calls` lists the invocations made, in order. */
  method Handle<Q, R, P, V>(request: Q, imageProcessor: Q -> ImageOutcome<R, P>, validator: P -> ValidatorOutcome<V>)
    returns (reply: Reply<R, V>, calls: seq<Invocation<Q, P>>)
    ensures OrderedOnce(calls) && calls[0] == InvokeImageProcessor(request)
    ensures |calls| == 2 <==>
      imageProcessor(request).ImageReturned? && imageProcessor(request).statusCode == Some(200)
      && imageProcessor(request).body.Success?
    ensures imageProcessor(request).ImageRaised? ==>
      reply == ErrorReply(500, imageProcessor(request).message, NoDetails) && calls == [InvokeImageProcessor(request)]
    ensures imageProcessor(request).ImageReturned? && imageProcessor(request).statusCode != Some(200) ==>
      reply == ImageReply(imageProcessor(request).result) && calls == [InvokeImageProcessor(request)]
    ensures imageProcessor(request).ImageReturned? && imageProcessor(request).statusCode == Some(200) ==>
      match imageProcessor(request).body
      case Failure(e) => reply == ErrorReply(500, e, NoDetails) && calls == [InvokeImageProcessor(request)]
      case Success(p) =>
        && calls == [InvokeImageProcessor(request), InvokeValidator(p)]
        && match validator(p)
           case ValidatorReturned(v) => reply == ValidatorReply(v)
           case ValidatorFunctionError(v) => reply == ErrorReply(500, ValidationFailed, PayloadDetails(v))
           case ValidatorRaised(m) => reply == ErrorReply(500, InvokeFailed, TextDetails(m))
  {
    calls := [InvokeImageProcessor(request)];
    var image := imageProcessor(request);
    if image.ImageRaised? {
      return ErrorReply(500, image.message, NoDetails), calls;
    }
    if image.statusCode != Some(200) {
      return ImageReply(image.result), calls;
    }
    if image.body.Failure? {
      return ErrorReply(500, image.body.error, NoDetails), calls;
    }
    var imageData := image.body.value;
    calls := calls + [InvokeValidator(imageData)];
    var validation := validator(imageData);
    match validation
    case ValidatorFunctionError(errorPayload) =>
      reply := ErrorReply(500, ValidationFailed, PayloadDetails(errorPayload));
    case ValidatorReturned(payload) =>
      reply := ValidatorReply(payload);
    case ValidatorRaised(message) =>
      reply := ErrorReply(500, InvokeFailed, TextDetails(message));
  }
}
