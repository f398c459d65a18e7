/**
 * The values that travel through the framework: Python values a handler can
 * return or receive, the request as the framework reads it, the responses it
 * builds, and what a handler call ends in.
 */
module Values {
  import opened Prelude
  import opened Models

  /**
   * The Python values the core distinguishes. `PResponse` is any instance of
   * aiohttp's StreamResponse; `PResponseClass` is the class object `web.Response`
   * itself; `PUser` a `User` model instance; `PRequest` the request object.
   */
  datatype PyValue =
    | PNone
    | PBool(b: bool)
    | PInt(i: int)
    | PStr(s: string)
    | PBytes(bytes: seq<byte>)
    | PList(items: seq<PyValue>)
    | PTuple(items: seq<PyValue>)
    | PDict(entries: map<string, PyValue>)
    | PUser(user: User)
    | PRequest(request: Request)
    | PResponse(response: Response)
    | PResponseClass

  /**
   * The request as the core reads it. Parsing is done by the server library and
   * arrives already done: `query` is the query string split into (key, value)
   * pairs in order, blank values kept; `json` is what `request.json()` decodes;
   * `form` what `request.post()` decodes, its (name, value) pairs in order, where
   * a name may repeat; `matchInfo` the path captures. An absent
   * Content-Type is the empty string. `user` and `data` are the attributes
   * `__user__` and `__data__` that the middleware stages set.
   */
  datatype Request = Request(
    httpMethod: string,
    path: string,
    contentType: string,
    cookies: map<string, string>,
    queryString: string,
    query: seq<(string, string)>,
    json: PyValue,
    form: seq<(string, string)>,
    matchInfo: map<string, string>,
    user: Option<User>,
    data: Option<PyValue>)

  /** The response objects the core builds. */
  datatype Response =
    | Body(contentType: string, body: seq<byte>)   // web.Response(body=...) with content_type set; status 200
    | StatusMessage(status: int, message: string)  // web.Response(status, message)
    | Found(location: string)                      // web.HTTPFound: 302 with a Location
    | BadRequest(text: string)                     // web.HTTPBadRequest: 400

  function StatusOf(r: Response): int
  {
    match r
    case Body(_, _) => 200
    case StatusMessage(s, _) => s
    case Found(_) => 302
    case BadRequest(_) => 400
  }

  /** Exceptions a handler may raise: the application error family, or anything else. */
  datatype Exc =
    | APIError(error: string, data: string, message: string)
    | Fault(name: string)

  /**
   * `APIValueError(field, message)`: the APIError subclass for a rejected input
   * field, with error code 'value:invalid' and the field name as its data.
   */
  function ApiValueError(field: string, message: string): Exc
  {
    APIError("value:invalid", field, message)
  }

  /** How a call ends: with a value, or with an exception that propagates. */
  datatype Outcome = Returned(value: PyValue) | Raised(exc: Exc)
}
