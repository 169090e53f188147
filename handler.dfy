/** The `/run` handler: decode the request, build the local-LLM client, call
    it with the input, strip the echoed input from the completion and write
    the JSON reply. The request decoder, the client constructor and the
    client call are outside the model and arrive as values and functions;
    the response writer is a value that each write extends, with the rules
    of Go's `net/http`: the first status code written is the one sent, and
    a body written before any code is sent with 200. */
module Handler {
  import opened Text
  import opened Sanitizer
  import opened Invocation

  const StatusOK: int := 200
  const StatusBadRequest: int := 400
  const StatusInternalServerError: int := 500

  /** The outcome of decoding the body `{"input": ...}`. */
  datatype Decoded = Decoded(input: string) | DecodeError(message: string)

  /** What the client call gives back: a completion and, when it failed, the
      error (a Go call returns both). */
  datatype CallResult = CallResult(completion: string, err: Option<string>)

  /** The JSON reply `{"input": ..., "response": ...}`. */
  datatype Reply = Reply(input: string, response: string)

  /** One write to the response body: an error message as `http.Error`
      writes it, or a reply as the JSON encoder writes it. */
  datatype Chunk = ErrorText(message: string) | JsonReply(reply: Reply)

  /** The response so far: the status code once one is fixed, and the body. */
  datatype Response = Response(code: Option<int>, body: seq<Chunk>)

  /** A step the handler takes towards the external model. */
  datatype Event = Created(bin: string, args: string) | Called(prompt: string)

  /** Everything one request produces: the response and the steps taken. */
  datatype Outcome = Outcome(response: Response, events: seq<Event>)

  /** The status the client receives. */
  function Status(r: Response): int
  {
    match r.code
    case Some(code) => code
    case None => StatusOK
  }

  /** `http.Error`: fix the status code unless one is already fixed, then
      write the message. */
  function HttpError(r: Response, message: string, code: int): (r': Response)
    ensures Status(r') == (if r.code.None? then code else Status(r))
    ensures r'.body == r.body + [ErrorText(message)]
  {
    Response(if r.code.None? then Some(code) else r.code, r.body + [ErrorText(message)])
  }

  /** `json.NewEncoder(w).Encode`: write the reply, which fixes 200 unless a
      status code is already fixed. */
  function EncodeJson(r: Response, reply: Reply): (r': Response)
    ensures Status(r') == Status(r)
    ensures r'.body == r.body + [JsonReply(reply)]
  {
    Response(if r.code.None? then Some(StatusOK) else r.code, r.body + [JsonReply(reply)])
  }

  /** The reply written for a completion: the input, and the completion with
      the input removed. */
  function Sanitized(input: string, completion: string): (reply: Reply)
    ensures reply.input == input
    ensures |reply.response| <= |completion|
  {
    Reply(input, RemoveAll(completion, input))
  }

  /** The handler as written. A failed call writes 500 and its error but does
      not return: the (sanitized) completion is still encoded after it. */
  function Run(
    c: Config,
    decoded: Decoded,
    newLlm: (string, string) -> Option<string>,
    call: Spec -> CallResult): (o: Outcome)
    ensures Status(o.response) in {StatusOK, StatusBadRequest, StatusInternalServerError}
    ensures Status(o.response) == StatusBadRequest <==> decoded.DecodeError?
    ensures decoded.DecodeError? <==> o.events == []
    ensures |o.response.body| >= 1
    ensures o.response.body[|o.response.body| - 1].JsonReply? ==>
      decoded.Decoded? && o.response.body[|o.response.body| - 1].reply.input == decoded.input
  {
    var blank := Response(None, []);
    match decoded
    case DecodeError(message) =>
      Outcome(HttpError(blank, message, StatusBadRequest), [])
    case Decoded(input) =>
      var spec := Build(c, input);
      var created := [Created(spec.bin, spec.args)];
      match newLlm(spec.bin, spec.args)
      case Some(err) =>
        Outcome(HttpError(blank, err, StatusInternalServerError), created)
      case None =>
        var result := call(spec);
        var afterCall :=
          match result.err
          case Some(err) => HttpError(blank, err, StatusInternalServerError)
          case None => blank;
        Outcome(EncodeJson(afterCall, Sanitized(input, result.completion)), created + [Called(input)])
  }

  /** The handler with a `return` after a failed call, as the other two error
      paths have. */
  function RunIntended(
    c: Config,
    decoded: Decoded,
    newLlm: (string, string) -> Option<string>,
    call: Spec -> CallResult): (o: Outcome)
    ensures Status(o.response) in {StatusOK, StatusBadRequest, StatusInternalServerError}
    ensures |o.response.body| == 1
    ensures o.response.body[0].JsonReply? <==> Status(o.response) == StatusOK
  {
    var blank := Response(None, []);
    match decoded
    case DecodeError(message) =>
      Outcome(HttpError(blank, message, StatusBadRequest), [])
    case Decoded(input) =>
      var spec := Build(c, input);
      var created := [Created(spec.bin, spec.args)];
      match newLlm(spec.bin, spec.args)
      case Some(err) =>
        Outcome(HttpError(blank, err, StatusInternalServerError), created)
      case None =>
        var result := call(spec);
        match result.err
        case Some(err) =>
          Outcome(HttpError(blank, err, StatusInternalServerError), created + [Called(input)])
        case None =>
          Outcome(EncodeJson(blank, Sanitized(input, result.completion)), created + [Called(input)])
  }

  /** A body that does not decode gets 400 with the decoder's message, and
      nothing else happens: no client is created or called, no JSON is
      written. */
  lemma DecodeFailureStops(
    c: Config, message: string,
    newLlm: (string, string) -> Option<string>, call: Spec -> CallResult)
    ensures
      var o := Run(c, DecodeError(message), newLlm, call);
      Status(o.response) == StatusBadRequest && o.response.body == [ErrorText(message)]
      && o.events == []
  {
  }

  /** A client that cannot be created gets 500 with its error, after one
      creation attempt with the configured binary and arguments; no call is
      made and no JSON is written. */
  lemma CreateFailureStops(
    c: Config, input: string, err: string,
    newLlm: (string, string) -> Option<string>, call: Spec -> CallResult)
    requires newLlm(BinPath(c), Args(c)) == Some(err)
    ensures
      var o := Run(c, Decoded(input), newLlm, call);
      Status(o.response) == StatusInternalServerError
      && o.response.body == [ErrorText(err)]
      && o.events == [Created(BinPath(c), Args(c))]
  {
  }

  /** A failed call gets 500 with its error, and then the handler goes on:
      the sanitized completion is encoded after the error message. */
  lemma CallFailureFallsThrough(
    c: Config, input: string,
    newLlm: (string, string) -> Option<string>, call: Spec -> CallResult)
    requires newLlm(BinPath(c), Args(c)).None?
    requires call(Build(c, input)).err.Some?
    ensures
      var result := call(Build(c, input));
      var o := Run(c, Decoded(input), newLlm, call);
      Status(o.response) == StatusInternalServerError
      && o.response.body == [ErrorText(result.err.value), JsonReply(Reply(input, RemoveAll(result.completion, input)))]
  {
  }

  /** With the missing `return` restored, a failed call gets 500 with its
      error and nothing more. */
  lemma IntendedCallFailureStops(
    c: Config, input: string,
    newLlm: (string, string) -> Option<string>, call: Spec -> CallResult)
    requires newLlm(BinPath(c), Args(c)).None?
    requires call(Build(c, input)).err.Some?
    ensures
      var o := RunIntended(c, Decoded(input), newLlm, call);
      Status(o.response) == StatusInternalServerError
      && o.response.body == [ErrorText(call(Build(c, input)).err.value)]
  {
  }

  /** The two handlers differ only when the call fails. */
  lemma IntendedAgreesOtherwise(
    c: Config, decoded: Decoded,
    newLlm: (string, string) -> Option<string>, call: Spec -> CallResult)
    requires decoded.Decoded? && newLlm(BinPath(c), Args(c)).None? ==>
      call(Build(c, decoded.input)).err.None?
    ensures RunIntended(c, decoded, newLlm, call) == Run(c, decoded, newLlm, call)
  {
  }

  /** A successful call gets 200 and a single JSON reply holding the input
      and the completion with the input removed; the client was created once
      with the configured binary and arguments and called once with the
      input. */
  lemma SuccessReplies(
    c: Config, input: string,
    newLlm: (string, string) -> Option<string>, call: Spec -> CallResult)
    requires newLlm(BinPath(c), Args(c)).None?
    requires call(Build(c, input)).err.None?
    ensures
      var o := Run(c, Decoded(input), newLlm, call);
      Status(o.response) == StatusOK
      && o.response.body == [JsonReply(Reply(input, RemoveAll(call(Build(c, input)).completion, input)))]
      && o.events == [Created(BinPath(c), Args(c)), Called(input)]
  {
  }

  /** Once the client exists it is called exactly once, with the input as
      the prompt, whether or not the call fails. */
  lemma OneCallPerRequest(
    c: Config, input: string,
    newLlm: (string, string) -> Option<string>, call: Spec -> CallResult)
    requires newLlm(BinPath(c), Args(c)).None?
    ensures Run(c, Decoded(input), newLlm, call).events == [Created(BinPath(c), Args(c)), Called(input)]
  {
  }

  /** The input "X" with a model that answers "Xhello" gets the reply
      `{"input": "X", "response": "hello"}` with status 200. */
  lemma EchoRoundTrip(
    c: Config,
    newLlm: (string, string) -> Option<string>, call: Spec -> CallResult)
    requires newLlm(BinPath(c), Args(c)).None?
    requires call(Build(c, "X")) == CallResult("Xhello", None)
    ensures
      var o := Run(c, Decoded("X"), newLlm, call);
      Status(o.response) == StatusOK && o.response.body == [JsonReply(Reply("X", "hello"))]
  {
    EchoExample();
  }

  /** An empty input is not rejected: it is passed to the client, and the
      completion comes back unchanged. */
  lemma EmptyInputForwarded(
    c: Config,
    newLlm: (string, string) -> Option<string>, call: Spec -> CallResult)
    requires newLlm(BinPath(c), Args(c)).None?
    requires call(Build(c, "")).err.None?
    ensures
      var o := Run(c, Decoded(""), newLlm, call);
      Called("") in o.events
      && o.response.body == [JsonReply(Reply("", call(Build(c, "")).completion))]
  {
  }
}
