/** How a finished HTTP request is judged (index.js:787-826): a transport
    failure, a status outside 2xx, an unparseable JSON body, a missing or
    unexpected JSON field and missing text content are errors; otherwise the
    caller receives the parsed JSON value or, failing that, the raw body. */
module Response {
  import opened Wrappers
  import opened Strings
  import opened Json

  /** What the HTTP client reported. `parsed` is what `JSON.parse` makes of
      the body; it is consulted only on the JSON path. */
  datatype HttpOutcome =
    | TransportFailure
    | Response(status: int, body: string, parsed: JsonParse)

  /** What the caller expects of the response: a JSON field that must be
      present, whether that field must also be loosely equal to `true`, and
      text the body must contain. */
  datatype Expectation = Expectation(field: Option<string>, expectTrue: bool, content: Option<string>)

  /** The error the request callback reports. */
  datatype HttpError =
    | TransportError
    | StatusError(code: int)
    | ParseError
    | MissingField(name: string)
    | UnexpectedValue(found: Option<JValue>)
    | MissingContent(text: string)

  /** The data handed to the caller: the parsed JSON value when there is a
      non-null one, the body text otherwise. */
  datatype Payload = JsonData(json: JValue) | TextData(text: string)

  predicate IsSuccessStatus(status: int) {
    200 <= status <= 299
  }

  /** The body parsed to a value other than `null`. */
  predicate HasJson(o: HttpOutcome) {
    o.Response? && o.parsed.Parsed? && o.parsed.value != JNull
  }

  /** A response with a 2xx status, which is then inspected further. */
  predicate Delivered(o: HttpOutcome) {
    o.Response? && IsSuccessStatus(o.status)
  }

  /** The checks of the request callback, in the order it makes them. */
  function Classify(isJson: bool, e: Expectation, o: HttpOutcome): (r: Result<Payload, HttpError>)
    ensures r == Failure(TransportError) <==> o.TransportFailure?
    ensures (r.Failure? && r.error.StatusError?) <==> o.Response? && !IsSuccessStatus(o.status)
    ensures r.Failure? && r.error.StatusError? ==> r.error.code == o.status
    ensures r == Failure(ParseError) <==> Delivered(o) && isJson && o.parsed.Unparseable?
    ensures (r.Failure? && r.error.MissingField?) <==>
              Delivered(o) && isJson && HasJson(o) && e.field.Some?
              && !HasOwnProperty(o.parsed.value, e.field.value)
    ensures (r.Failure? && r.error.UnexpectedValue?) <==>
              Delivered(o) && isJson && HasJson(o) && e.field.Some?
              && HasOwnProperty(o.parsed.value, e.field.value)
              && e.expectTrue && !LooselyTrue(Property(o.parsed.value, e.field.value))
    ensures (r.Failure? && r.error.MissingContent?) <==>
              Delivered(o) && !isJson && e.content.Some? && !IsSubstring(e.content.value, o.body)
    ensures r.Success? ==> Delivered(o)
    ensures r.Success? ==>
              r.value == if isJson && HasJson(o) then JsonData(o.parsed.value) else TextData(o.body)
  {
    match o
    case TransportFailure => Failure(TransportError)
    case Response(status, body, parsed) =>
      if status < 200 || status > 299 then Failure(StatusError(status))
      else if isJson then
        if parsed.Unparseable? then Failure(ParseError)
        else if parsed.value == JNull then Success(TextData(body))
        else
          match e.field
          case None => Success(JsonData(parsed.value))
          case Some(f) =>
            if !HasOwnProperty(parsed.value, f) then Failure(MissingField(f))
            else if e.expectTrue && !LooselyTrue(Property(parsed.value, f))
            then Failure(UnexpectedValue(Property(parsed.value, f)))
            else Success(JsonData(parsed.value))
      else if e.content.Some? && IndexOf(body, e.content.value) == -1 then
        Failure(MissingContent(e.content.value))
      else Success(TextData(body))
  }

  /** A delivered response is accepted exactly when every expectation the
      caller stated holds of it. */
  lemma AcceptedIffExpectationsHold(isJson: bool, e: Expectation, o: HttpOutcome)
    requires Delivered(o)
    ensures Classify(isJson, e, o).Success? <==>
              if isJson then
                && o.parsed.Parsed?
                && (HasJson(o) && e.field.Some? ==>
                      && HasOwnProperty(o.parsed.value, e.field.value)
                      && (e.expectTrue ==> LooselyTrue(Property(o.parsed.value, e.field.value))))
              else
                e.content.Some? ==> IsSubstring(e.content.value, o.body)
  {
  }

  /** Without an expected field or content, only the transport, the status
      and (on the JSON path) the parser can reject a response. */
  lemma NoExpectationAcceptsDelivered(isJson: bool, o: HttpOutcome)
    ensures var r := Classify(isJson, Expectation(None, false, None), o);
            r.Success? <==> Delivered(o) && (isJson ==> o.parsed.Parsed?)
  {
  }

  /** A JSON `null` body is not an error even when a field is expected: the
      field check is skipped and the caller receives the body text. */
  lemma NullBodyIsPassedAsText(e: Expectation, body: string)
    ensures Classify(true, e, Response(200, body, Parsed(JNull))) == Success(TextData(body))
  {
  }
}
