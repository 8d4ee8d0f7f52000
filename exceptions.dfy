/**
 * Errors and the single JSON error envelope (app/core/exceptions.py).
 *
 * Every failure the model produces is an `ApiError`: an HTTPException raised
 * by a route or a dependency, a request that failed validation, or any other
 * exception. `Respond` turns each into the response the registered handlers
 * build.
 */
module Errors {
  import opened Wrappers
  import Security

  /** Exceptions that no handler of the application expects. */
  datatype Cause =
    | IntegrityError   // the database refused a commit (NOT NULL or UNIQUE)
    | ValueError       // `int(...)` of a string that is not a number
    | TypeError        // an unknown keyword passed to a model's constructor

  /** One component of a validation error's location: a field name or a list index. */
  datatype LocPart = Key(name: string) | Index(position: int)

  /** One entry of `RequestValidationError.errors()`: where the input is wrong and why. */
  datatype ValidationIssue = ValidationIssue(loc: seq<LocPart>, msg: string)

  datatype ApiError =
    | HttpException(status: int, detail: string)
    | RequestInvalid(issues: seq<ValidationIssue>)
    | Unhandled(cause: Cause)

  /** One entry of the `details` list of a 422 response. */
  datatype FieldError = FieldError(field: string, message: string)

  /** `{"error": {"status": ..., "message": ..., "details"?: [...]}}`. */
  datatype ErrorBody = ErrorBody(status: int, message: string, details: Option<seq<FieldError>>)

  datatype Response = JsonResponse(status: int, body: ErrorBody)

  /**
   * `_error_body(status_code, message, details)`. The `details` key is
   * written only when `details` is truthy, so both a missing list and an
   * empty one leave it out.
   */
  function ErrorEnvelope(status: int, message: string, details: Option<seq<FieldError>>): (b: ErrorBody)
    ensures b.status == status && b.message == message
    ensures b.details.Some? <==> details.Some? && details.value != []
    ensures b.details.Some? ==> b.details == details
  {
    if details.Some? && details.value != [] then ErrorBody(status, message, details)
    else ErrorBody(status, message, None)
  }

  /** `http_exception_handler`: status and message are the exception's own. */
  function HttpExceptionHandler(status: int, detail: string): (r: Response)
    ensures r.status == status && r.body.status == status
    ensures r.body.message == detail && r.body.details.None?
  {
    JsonResponse(status, ErrorEnvelope(status, detail, None))
  }

  // ---------------------------------------------------------------------
  // Validation errors: location paths joined with an arrow
  // ---------------------------------------------------------------------

  /** The separator of a field path: space, RIGHTWARDS ARROW (U+2192), space. */
  const PathSeparator: string := " \U{2192} "

  /** `str(loc)` for one location component. */
  function LocText(part: LocPart): string
  {
    match part
    case Key(name) => name
    case Index(position) => Security.IntToString(position)
  }

  /** `" → ".join(parts)`. */
  function JoinPath(parts: seq<string>): string
  {
    if parts == [] then ""
    else if |parts| == 1 then parts[0]
    else parts[0] + PathSeparator + JoinPath(parts[1..])
  }

  /** Each location component converted with `str`, in order. */
  function LocTexts(loc: seq<LocPart>): (texts: seq<string>)
    ensures |texts| == |loc|
    ensures forall i :: 0 <= i < |loc| ==> texts[i] == LocText(loc[i])
  {
    if loc == [] then [] else [LocText(loc[0])] + LocTexts(loc[1..])
  }

  /** `" → ".join(str(loc) for loc in err["loc"])`. */
  function FieldPath(loc: seq<LocPart>): string
  {
    JoinPath(LocTexts(loc))
  }

  /** The comprehension of `validation_exception_handler`: one entry per error, in order. */
  function FieldErrors(issues: seq<ValidationIssue>): (r: seq<FieldError>)
    ensures |r| == |issues|
    ensures forall i :: 0 <= i < |issues| ==>
              r[i] == FieldError(FieldPath(issues[i].loc), issues[i].msg)
  {
    if issues == [] then []
    else [FieldError(FieldPath(issues[0].loc), issues[0].msg)] + FieldErrors(issues[1..])
  }

  /** `validation_exception_handler`: 422, a fixed message, and the per-field list. */
  function ValidationExceptionHandler(issues: seq<ValidationIssue>): (r: Response)
    ensures r.status == 422 && r.body.status == 422
    ensures r.body.message == "Request validation failed"
    ensures issues != [] ==> r.body.details == Some(FieldErrors(issues))
    ensures issues == [] ==> r.body.details.None?
  {
    JsonResponse(422, ErrorEnvelope(422, "Request validation failed", Some(FieldErrors(issues))))
  }

  /** Splits a joined path back into its components at each separator, scanning from the left. */
  function SplitPath(s: string): (parts: seq<string>)
    ensures |parts| >= 1
    decreases |s|
  {
    if |s| < |PathSeparator| then [s]
    else if s[..|PathSeparator|] == PathSeparator then [""] + SplitPath(s[|PathSeparator|..])
    else
      var rest := SplitPath(s[1..]);
      [[s[0]] + rest[0]] + rest[1..]
  }

  predicate ArrowFree(s: string)
  {
    forall i :: 0 <= i < |s| ==> s[i] != '\U{2192}'
  }

  lemma {:induction false} SplitArrowFree(x: string)
    requires ArrowFree(x)
    ensures SplitPath(x) == [x]
    decreases |x|
  {
    if |x| >= |PathSeparator| {
      assert x[..|PathSeparator|][1] == x[1];
      SplitArrowFree(x[1..]);
      assert [x[0]] + x[1..] == x;
    }
  }

  lemma {:induction false} SplitAfterComponent(x: string, y: string)
    requires ArrowFree(x)
    ensures SplitPath(x + PathSeparator + y) == [x] + SplitPath(y)
    decreases |x|
  {
    var s := x + PathSeparator + y;
    if x == [] {
      assert s == PathSeparator + y;
      assert s[..|PathSeparator|] == PathSeparator;
      assert s[|PathSeparator|..] == y;
    } else {
      assert s[1] != '\U{2192}' by {
        if |x| == 1 { assert s[1] == PathSeparator[0]; } else { assert s[1] == x[1]; }
      }
      assert s[..|PathSeparator|] != PathSeparator by {
        assert s[..|PathSeparator|][1] == s[1];
      }
      SplitAfterComponent(x[1..], y);
      assert s[1..] == x[1..] + PathSeparator + y;
      assert [x[0]] + x[1..] == x;
    }
  }

  /**
   * The arrow-joined path loses nothing: as long as no component itself
   * contains an arrow, splitting the path gives the components back.
   */
  lemma {:induction false} JoinPathRoundTrip(parts: seq<string>)
    requires |parts| >= 1
    requires forall i :: 0 <= i < |parts| ==> ArrowFree(parts[i])
    ensures SplitPath(JoinPath(parts)) == parts
  {
    if |parts| == 1 {
      SplitArrowFree(parts[0]);
    } else {
      SplitAfterComponent(parts[0], JoinPath(parts[1..]));
      JoinPathRoundTrip(parts[1..]);
    }
  }

  // ---------------------------------------------------------------------
  // The catch-all handler
  // ---------------------------------------------------------------------

  /** What running an exception handler gives: a response, or a new exception it raised. */
  datatype HandlerOutcome = Returns(response: Response) | Raises(exception: string)

  /**
   * The names bound at module level in app/core/exceptions.py (its imports,
   * `logger` and the functions it defines). `status` is not among them.
   */
  const ExceptionsModuleNames: set<string> :=
    {"logging", "Request", "RequestValidationError", "JSONResponse", "StarletteHTTPException",
     "logger", "_error_body", "http_exception_handler", "validation_exception_handler",
     "unhandled_exception_handler"}

  /**
   * `unhandled_exception_handler` as written: it reads
   * `status.HTTP_500_INTERNAL_SERVER_ERROR` from the module namespace, so
   * with the module's actual names it raises NameError instead of answering.
   */
  function UnhandledExceptionHandlerAsWritten(namespace: set<string>, exceptionText: string): (o: HandlerOutcome)
    ensures "status" !in namespace ==> o == Raises("NameError")
    ensures "status" in namespace ==> o == Returns(UnhandledExceptionHandler(exceptionText))
  {
    if "status" !in namespace then Raises("NameError")
    else Returns(JsonResponse(500, ErrorEnvelope(500, "An internal server error occurred", None)))
  }

  /** With the module as it stands the catch-all never produces its envelope. */
  lemma UnhandledHandlerRaisesNameError(exceptionText: string)
    ensures UnhandledExceptionHandlerAsWritten(ExceptionsModuleNames, exceptionText) == Raises("NameError")
  {
  }

  /**
   * `unhandled_exception_handler` as intended (with `status` imported): a
   * 500 envelope with a fixed message, whatever the exception said.
   */
  function UnhandledExceptionHandler(exceptionText: string): (r: Response)
    ensures r.status == 500 && r.body.status == 500
    ensures r.body.message == "An internal server error occurred" && r.body.details.None?
  {
    JsonResponse(500, ErrorEnvelope(500, "An internal server error occurred", None))
  }

  /** No exception text reaches the client: the 500 response is the same for every exception. */
  lemma UnhandledResponseLeaksNothing(text1: string, text2: string)
    ensures UnhandledExceptionHandler(text1) == UnhandledExceptionHandler(text2)
  {
  }

  /** The text an unexpected exception carries; it reaches only the server log. */
  function CauseText(c: Cause): string
  {
    match c
    case IntegrityError => "IntegrityError"
    case ValueError => "ValueError"
    case TypeError => "TypeError"
  }

  /** The response the application sends for an error, through the registered handlers. */
  function Respond(e: ApiError): (r: Response)
    ensures r.status == r.body.status
    ensures e.HttpException? ==> r.status == e.status && r.body.message == e.detail
    ensures e.RequestInvalid? ==> r.status == 422
    ensures e.Unhandled? ==> r.status == 500
  {
    match e
    case HttpException(status, detail) => HttpExceptionHandler(status, detail)
    case RequestInvalid(issues) => ValidationExceptionHandler(issues)
    case Unhandled(cause) => UnhandledExceptionHandler(CauseText(cause))
  }
}
