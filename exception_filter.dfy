/**
 * The global exception filter (ApiExceptionFilter): every exception becomes
 * an HTTP status and a JSON payload `{code, message, correlationId, details?}`.
 */
module ApiExceptionFilter {
  import opened Wrappers
  import opened Json
  import Text

  /** What was thrown: an HttpException (its status, getResponse() and message), or anything else. */
  datatype Thrown =
    | HttpException(status: int, response: Value, message: string)
    | OtherError

  /** The two places a correlation id is read from: the request property and the header. */
  datatype Request = Request(correlationId: Option<string>, header: Option<string>)

  /** The status and the payload sent; `details` is None when the key is left out. */
  datatype Reply = Reply(status: int, code: string, message: string, correlationId: string, details: Option<Value>)

  const InternalServerError := 500
  const InternalMessage := "Internal server error"

  /** `toErrorCode` */
  function ToErrorCode(status: int): string {
    if status == 400 then "BAD_REQUEST"
    else if status == 401 then "UNAUTHORIZED"
    else if status == 403 then "FORBIDDEN"
    else if status == 404 then "NOT_FOUND"
    else if status == 409 then "CONFLICT"
    else if status == 429 then "TOO_MANY_REQUESTS"
    else if status >= 500 then "INTERNAL_ERROR"
    else "REQUEST_ERROR"
  }

  /**
   * The six named statuses get their own codes; every other status of 500 or more is
   * INTERNAL_ERROR and every other status below 500 is REQUEST_ERROR.
   */
  lemma ErrorCodes(status: int)
    ensures var named := [400, 401, 403, 404, 409, 429];
            var codes := ["BAD_REQUEST", "UNAUTHORIZED", "FORBIDDEN", "NOT_FOUND", "CONFLICT", "TOO_MANY_REQUESTS"];
      && (forall k :: 0 <= k < 6 && status == named[k] ==> ToErrorCode(status) == codes[k])
      && (status !in named && status >= 500 ==> ToErrorCode(status) == "INTERNAL_ERROR")
      && (status !in named && status < 500 ==> ToErrorCode(status) == "REQUEST_ERROR")
      && (ToErrorCode(status) == "INTERNAL_ERROR" <==> status >= 500)
  {
  }

  /** `String(v)` for an element of a joined array: null and undefined give ''. */
  function ElementText(v: Value): string
    decreases v, 1
  {
    match v
    case JUndefined => ""
    case JNull => ""
    case JBool(b) => if b then "true" else "false"
    case JNum(n) => Text.IntToString(n)
    case JStr(s) => s
    case JArr(items) => Join(items, ",")
    case JObj(_) => "[object Object]"
  }

  /** `items.join(sep)` */
  function Join(items: seq<Value>, sep: string): (r: string)
    decreases items, 0
  {
    if |items| == 0 then ""
    else if |items| == 1 then ElementText(items[0])
    else ElementText(items[0]) + sep + Join(items[1..], sep)
  }

  /** `req.correlationId ?? req.header('x-correlation-id') ?? 'unknown'` */
  function CorrelationId(req: Request): string {
    if req.correlationId.Some? then req.correlationId.value
    else if req.header.Some? then req.header.value
    else "unknown"
  }

  /** The message of an object response. */
  function ObjectMessage(response: Value, exceptionMessage: string): string {
    var m := Get(response, "message");
    match m
    case JStr(s) => s
    case JArr(items) => Join(items, ", ")
    case _ => exceptionMessage
  }

  /** The details of an object response: the first defined of details, {provider}, {missingFields}. */
  function ObjectDetails(response: Value): Option<Value> {
    if Get(response, "details") != JUndefined then Some(Get(response, "details"))
    else if Get(response, "provider") != JUndefined then Some(JObj([("provider", Get(response, "provider"))]))
    else if Get(response, "missingFields") != JUndefined then
      Some(JObj([("missingFields", Get(response, "missingFields"))]))
    else None
  }

  /** The reply for a thrown value, by kind of exception and of response. */
  function Respond(thrown: Thrown, req: Request): Reply {
    var cid := CorrelationId(req);
    match thrown
    case OtherError => Reply(InternalServerError, ToErrorCode(InternalServerError), InternalMessage, cid, None)
    case HttpException(status, response, exMessage) =>
      if response.JStr? then Reply(status, ToErrorCode(status), response.s, cid, None)
      else if IsObjectLike(response) then
        var code := Get(response, "code");
        Reply(status,
              if code.JStr? && code.s != "" then code.s else ToErrorCode(status),
              ObjectMessage(response, exMessage), cid, ObjectDetails(response))
      else Reply(status, ToErrorCode(status), exMessage, cid, None)
  }

  /** `catch`: the filter's own step-by-step construction of the reply. */
  method Catch(thrown: Thrown, req: Request) returns (r: Reply)
    ensures r == Respond(thrown, req)
  {
    var correlationId := CorrelationId(req);
    var status := if thrown.HttpException? then thrown.status else InternalServerError;
    var message := InternalMessage;
    var code := ToErrorCode(status);
    var details: Option<Value> := None;
    if thrown.HttpException? {
      var response := thrown.response;
      if response.JStr? {
        message := response.s;
      } else if IsObjectLike(response) {
        var m := Get(response, "message");
        if m.JStr? {
          message := m.s;
        } else if m.JArr? {
          message := Join(m.items, ", ");
        } else {
          message := thrown.message;
        }
        var c := Get(response, "code");
        if c.JStr? && c.s != "" {
          code := c.s;
        }
        if Get(response, "details") != JUndefined {
          details := Some(Get(response, "details"));
        } else if Get(response, "provider") != JUndefined {
          details := Some(JObj([("provider", Get(response, "provider"))]));
        } else if Get(response, "missingFields") != JUndefined {
          details := Some(JObj([("missingFields", Get(response, "missingFields"))]));
        }
      } else {
        message := thrown.message;
      }
    }
    r := Reply(status, code, message, correlationId, details);
  }

  /** Anything that is not an HttpException is a 500 INTERNAL_ERROR with the fixed message and no details. */
  lemma NonHttpIsInternal(req: Request)
    ensures Respond(OtherError, req) == Reply(500, "INTERNAL_ERROR", "Internal server error", CorrelationId(req), None)
  {
  }

  /** The correlation id is the request's own, else the header, else 'unknown'. */
  lemma CorrelationIdSources(thrown: Thrown, req: Request)
    ensures var c := Respond(thrown, req).correlationId;
      && (req.correlationId.Some? ==> c == req.correlationId.value)
      && (req.correlationId.None? && req.header.Some? ==> c == req.header.value)
      && (req.correlationId.None? && req.header.None? ==> c == "unknown")
  {
  }

  /**
   * An HttpException keeps its status. A string response is the message, with the code
   * from the status and no details; a response that is neither a string nor an object gives
   * the exception's own message.
   */
  lemma HttpExceptionScalars(status: int, response: Value, exMessage: string, req: Request)
    ensures var r := Respond(HttpException(status, response, exMessage), req);
      && r.status == status
      && (response.JStr? ==> r.message == response.s && r.code == ToErrorCode(status) && r.details.None?)
      && (!response.JStr? && !IsObjectLike(response) ==>
            r.message == exMessage && r.code == ToErrorCode(status) && r.details.None?)
  {
  }

  /**
   * For an object response: a string message is used as is, an array message is joined with
   * ', ', anything else gives the exception's message; a non-empty string code overrides the
   * status code; details come from details, else {provider}, else {missingFields}, and the
   * key is present exactly when one of the three is defined.
   */
  lemma HttpExceptionObject(status: int, response: Value, exMessage: string, req: Request)
    requires IsObjectLike(response)
    ensures var r := Respond(HttpException(status, response, exMessage), req);
      var m := Get(response, "message");
      var c := Get(response, "code");
      && (m.JStr? ==> r.message == m.s)
      && (m.JArr? ==> r.message == Join(m.items, ", "))
      && (!m.JStr? && !m.JArr? ==> r.message == exMessage)
      && (c.JStr? && c.s != "" ==> r.code == c.s)
      && (!(c.JStr? && c.s != "") ==> r.code == ToErrorCode(status))
      && (Get(response, "details") != JUndefined ==> r.details == Some(Get(response, "details")))
      && (Get(response, "details") == JUndefined && Get(response, "provider") != JUndefined ==>
            r.details == Some(JObj([("provider", Get(response, "provider"))])))
      && (Get(response, "details") == JUndefined && Get(response, "provider") == JUndefined
          && Get(response, "missingFields") != JUndefined ==>
            r.details == Some(JObj([("missingFields", Get(response, "missingFields"))])))
      && (r.details.None? <==> Get(response, "details") == JUndefined && Get(response, "provider") == JUndefined
                               && Get(response, "missingFields") == JUndefined)
  {
  }

  /** Joining strings with ', ' puts the separator between consecutive messages. */
  lemma JoinStrings(a: string, b: string, rest: seq<Value>)
    ensures Join([JStr(a), JStr(b)] + rest, ", ") == a + ", " + Join([JStr(b)] + rest, ", ")
  {
    assert ([JStr(a), JStr(b)] + rest)[1..] == [JStr(b)] + rest;
  }

  /** A BadRequest with explicit code, message and details is passed through with that status. */
  lemma ExplicitCodeExample()
    ensures var response := JObj([("code", JStr("TEST_BAD_REQUEST")), ("message", JStr("Synthetic validation error")),
                                  ("details", JObj([("field", JStr("value"))]))]);
      Respond(HttpException(400, response, "Bad Request Exception"), Request(Some("corr-123"), Some("corr-123")))
      == Reply(400, "TEST_BAD_REQUEST", "Synthetic validation error", "corr-123", Some(JObj([("field", JStr("value"))])))
  {
  }

  /** An HttpException built from a plain string takes its code from the status. */
  lemma StringMessageExample()
    ensures Respond(HttpException(401, JStr("Auth failed"), "Auth failed"), Request(Some("corr-401"), Some("corr-401")))
      == Reply(401, "UNAUTHORIZED", "Auth failed", "corr-401", None)
  {
  }
}
