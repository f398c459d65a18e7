/**
 * The application wiring: the four middleware stages, the order they are
 * installed in, the coercion of a handler's return value into a response, and
 * the relative-time filter the templates use.
 */
module App {
  import opened Prelude
  import opened Text
  import opened Models
  import opened Values
  import opened Handlers
  import opened WebFrame

  // ================================================================ the environment

  /**
   * What the stages use but this model does not define: the cookie secret, SHA-1,
   * the user lookup by id, the clock in whole seconds, the template engine
   * (template name and bindings to text), `json.dumps` and `str`.
   */
  datatype Env = Env(
    secret: string,
    sha1: Sha1,
    findUser: string -> Option<User>,
    now: int,
    render: (PyValue, map<string, PyValue>) -> string,
    dumps: PyValue -> string,
    show: PyValue -> string)

  /**
   * What a stage hands back: the request as it stands when the inner chain is
   * done (stages set attributes on the shared request object), and how the
   * inner chain ended.
   */
  datatype Reply = Reply(request: Request, outcome: Outcome)

  /** A request handler as a middleware stage sees it. */
  type Handler = Request -> Reply

  /** A middleware factory: wraps the next handler into a new one. */
  type Stage = Handler -> Handler

  // ================================================================ response coercion

  const OCTET_STREAM: string := "application/octet-stream"
  const TEXT_HTML: string := "text/html;charset=utf-8"
  const APPLICATION_JSON: string := "application/json;charset=utf-8"
  const TEXT_PLAIN: string := "text/plain;charset=utf-8"

  predicate IsStatus(i: int) { 100 <= i < 600 }

  /** `request.__user__` as the Python value the templates receive. */
  function UserValue(user: Option<User>): PyValue
  {
    if user.Some? then PUser(user.value) else PNone
  }

  /**
   * The body of `response`: turns a handler's return value into a response, trying
   * the shapes in source order. An int in range yields the class `web.Response`
   * itself, not an instance. A `User` row is a dict (the ORM model subclasses
   * `dict`) without a `__template__` key, so it takes the JSON branch.
   */
  function Coerce(env: Env, user: Option<User>, r: PyValue): (c: PyValue)
    ensures c.PResponse? || c.PResponseClass?
    ensures c.PResponseClass? <==> r.PInt? && IsStatus(r.i)
  {
    match r
    case PResponse(_) => r
    case PBytes(b) => PResponse(Body(OCTET_STREAM, b))
    case PStr(s) =>
      if StartsWith(s, "redirect:") then PResponse(Found(s[9..]))
      else PResponse(Body(TEXT_HTML, Utf8(s)))
    case PDict(m) =>
      var template := if "__template__" in m then m["__template__"] else PNone;
      if template == PNone then PResponse(Body(APPLICATION_JSON, Utf8(env.dumps(r))))
      else PResponse(Body(TEXT_HTML, Utf8(env.render(template, m["__user__" := UserValue(user)]))))
    case PUser(_) => PResponse(Body(APPLICATION_JSON, Utf8(env.dumps(r))))
    case PInt(i) =>
      if IsStatus(i) then PResponseClass
      else PResponse(Body(TEXT_PLAIN, Utf8(env.show(r))))
    case PTuple(items) =>
      if |items| == 2 && items[0].PInt? && IsStatus(items[0].i) then
        PResponse(StatusMessage(items[0].i, env.show(items[1])))
      else PResponse(Body(TEXT_PLAIN, Utf8(env.show(r))))
    case _ => PResponse(Body(TEXT_PLAIN, Utf8(env.show(r))))
  }

  /** Each shape, in source order, and the response it becomes. */
  lemma CoerceCases(env: Env, user: Option<User>, r: PyValue)
    ensures r.PResponse? ==> Coerce(env, user, r) == r
    ensures r.PBytes? ==> Coerce(env, user, r) == PResponse(Body(OCTET_STREAM, r.bytes))
    ensures r.PStr? && StartsWith(r.s, "redirect:") ==> Coerce(env, user, r) == PResponse(Found(r.s[9..]))
    ensures r.PStr? && !StartsWith(r.s, "redirect:") ==> Coerce(env, user, r) == PResponse(Body(TEXT_HTML, Utf8(r.s)))
    ensures r.PDict? && ("__template__" !in r.entries || r.entries["__template__"] == PNone) ==>
              Coerce(env, user, r) == PResponse(Body(APPLICATION_JSON, Utf8(env.dumps(r))))
    ensures r.PUser? ==> Coerce(env, user, r) == PResponse(Body(APPLICATION_JSON, Utf8(env.dumps(r))))
    ensures r.PDict? && "__template__" in r.entries && r.entries["__template__"] != PNone ==>
              Coerce(env, user, r) == PResponse(Body(TEXT_HTML, Utf8(env.render(r.entries["__template__"],
                                                                   r.entries["__user__" := UserValue(user)]))))
    ensures r.PTuple? && |r.items| == 2 && r.items[0].PInt? && IsStatus(r.items[0].i) ==>
              Coerce(env, user, r) == PResponse(StatusMessage(r.items[0].i, env.show(r.items[1])))
    ensures (r.PNone? || r.PBool? || r.PList? || r.PRequest? || r.PResponseClass?
             || (r.PInt? && !IsStatus(r.i))
             || (r.PTuple? && !(|r.items| == 2 && r.items[0].PInt? && IsStatus(r.items[0].i)))) ==>
              Coerce(env, user, r) == PResponse(Body(TEXT_PLAIN, Utf8(env.show(r))))
  {
  }

  /** Coercing a response again changes nothing: the stage is idempotent on what it produces. */
  lemma CoerceIdempotent(env: Env, user: Option<User>, r: PyValue)
    requires Coerce(env, user, r).PResponse?
    ensures Coerce(env, user, Coerce(env, user, r)) == Coerce(env, user, r)
  {
  }

  /** The status every coerced shape carries: 302 for a redirect, t for a status tuple, 200 for a body. */
  lemma CoercedStatus(env: Env, user: Option<User>, r: PyValue)
    requires !r.PResponse? && Coerce(env, user, r).PResponse?
    ensures var s := StatusOf(Coerce(env, user, r).response);
            && (r.PStr? && StartsWith(r.s, "redirect:") ==> s == 302)
            && (r.PTuple? && |r.items| == 2 && r.items[0].PInt? && IsStatus(r.items[0].i) ==> s == r.items[0].i)
            && ((!(r.PStr? && StartsWith(r.s, "redirect:"))
                 && !(r.PTuple? && |r.items| == 2 && r.items[0].PInt? && IsStatus(r.items[0].i))) ==> s == 200)
            && IsStatus(s)
  {
  }

  /** The dict an APIError turns into has no template key, so it is always sent as JSON. */
  lemma ApiErrorSentAsJson(env: Env, user: Option<User>, e: string, d: string, m: string)
    ensures Coerce(env, user, PDict(ApiErrorDict(e, d, m)))
            == PResponse(Body(APPLICATION_JSON, Utf8(env.dumps(PDict(ApiErrorDict(e, d, m))))))
  {
    assert "__template__" !in ApiErrorDict(e, d, m);
  }

  /** A template sees the signed-in user under `__user__`, and every other binding as the handler returned it. */
  lemma TemplateSeesUser(env: Env, user: Option<User>, m: map<string, PyValue>)
    requires "__template__" in m && m["__template__"] != PNone
    ensures var bindings := m["__user__" := UserValue(user)];
            && Coerce(env, user, PDict(m)) == PResponse(Body(TEXT_HTML, Utf8(env.render(m["__template__"], bindings))))
            && bindings["__user__"] == UserValue(user)
            && forall k :: k in m && k != "__user__" ==> k in bindings && bindings[k] == m[k]
  {
  }

  // ================================================================ the four stages

  /** `logger_factory`: logs and delegates; the reply is the inner one, untouched. */
  function LoggerFactory(next: Handler): (h: Handler)
    ensures forall req :: h(req) == next(req)
  {
    req => next(req)
  }

  /** `response_factory`: coerces whatever the inner chain returned; an exception propagates. */
  function ResponseFactory(env: Env, next: Handler): (h: Handler)
    ensures forall req :: next(req).outcome.Raised? ==> h(req) == next(req)
    ensures forall req :: next(req).outcome.Returned? ==>
              && h(req).request == next(req).request
              && h(req).outcome.Returned?
              && (h(req).outcome.value.PResponse? || h(req).outcome.value.PResponseClass?)
  {
    req =>
      var rep := next(req);
      if rep.outcome.Raised? then rep
      else Reply(rep.request, Returned(Coerce(env, rep.request.user, rep.outcome.value)))
  }

  /** The multi-dict `request.post()` returns, as its (name, value) pairs in order. */
  function FormValue(form: seq<(string, string)>): (v: PyValue)
    ensures v.PList? && |v.items| == |form|
    ensures forall i :: 0 <= i < |form| ==> v.items[i] == PTuple([PStr(form[i].0), PStr(form[i].1)])
  {
    PList(seq(|form|, i requires 0 <= i < |form| => PTuple([PStr(form[i].0), PStr(form[i].1)])))
  }

  /** `request.__data__` after `parse_data`: the decoded JSON or form of a POST, matched case-sensitively. */
  function WithData(req: Request): (r: Request)
    ensures r == req.(data := r.data)
    ensures req.httpMethod != "POST" ==> r == req
    ensures req.httpMethod == "POST" && StartsWith(req.contentType, "application/json") ==> r.data == Some(req.json)
    ensures (req.httpMethod == "POST" && !StartsWith(req.contentType, "application/json")
             && StartsWith(req.contentType, "application/x-www-form-urlencoded")) ==> r.data == Some(FormValue(req.form))
    ensures r.data != req.data ==>
              req.httpMethod == "POST"
              && (StartsWith(req.contentType, "application/json") || StartsWith(req.contentType, "application/x-www-form-urlencoded"))
  {
    if req.httpMethod != "POST" then req
    else if StartsWith(req.contentType, "application/json") then req.(data := Some(req.json))
    else if StartsWith(req.contentType, "application/x-www-form-urlencoded") then req.(data := Some(FormValue(req.form)))
    else req
  }

  /** `data_factory`: records the decoded POST body on the request, then delegates. */
  function DataFactory(next: Handler): (h: Handler)
    ensures forall req: Request :: req.httpMethod != "POST" ==> h(req) == next(req)
    ensures forall req :: h(req) == next(req.(data := WithData(req).data))
  {
    assert forall req: Request :: req.httpMethod != "POST" ==> WithData(req) == req;
    req => next(WithData(req))
  }

  /** The user `auth` resolves: the one `cookie2user` returns for a non-empty session cookie, else None. */
  function SessionUser(env: Env, req: Request): (u: Option<User>)
    ensures u.Some? ==> COOKIE_NAME in req.cookies && req.cookies[COOKIE_NAME] != ""
    ensures COOKIE_NAME in req.cookies && req.cookies[COOKIE_NAME] != "" ==>
              u == Cookie2User(req.cookies[COOKIE_NAME], env.now, env.findUser, env.secret, env.sha1)
  {
    var cookie := if COOKIE_NAME in req.cookies then req.cookies[COOKIE_NAME] else "";
    if cookie != "" then Cookie2User(cookie, env.now, env.findUser, env.secret, env.sha1) else None
  }

  /** Whether `auth` turns the request away: a `/manage/` path without an admin user. */
  predicate Gated(path: string, user: Option<User>)
  {
    StartsWith(path, "/manage/") && (user.None? || !user.value.admin)
  }

  /** `auth_factory`: resets and resolves `__user__`, redirects a gated request, else delegates. */
  function AuthFactory(env: Env, next: Handler): (h: Handler)
    ensures forall req: Request :: Gated(req.path, SessionUser(env, req)) ==>
              h(req).outcome == Returned(PResponse(Found("/signin")))
    ensures forall req: Request :: !Gated(req.path, SessionUser(env, req)) ==>
              h(req) == next(req.(user := SessionUser(env, req)))
  {
    req =>
      var user := SessionUser(env, req);
      var req' := req.(user := user);
      if Gated(req.path, user) then Reply(req', Returned(PResponse(Found("/signin"))))
      else next(req')
  }

  /**
   * A request carrying a session cookie issued for a user whose id holds no '-'
   * is served as that user (password masked) until the cookie's expiry, provided
   * the lookup finds the same row; an admin then passes the `/manage/` gate.
   */
  lemma SignedInUserSeen(env: Env, req: Request, u: User, maxAge: int, issued: int)
    requires '-' !in u.id && issued + maxAge >= 0 && env.now <= issued + maxAge
    requires COOKIE_NAME in req.cookies
    requires req.cookies[COOKIE_NAME] == User2Cookie(u, maxAge, issued, env.secret, env.sha1)
    requires env.findUser(u.id) == Some(u)
    ensures SessionUser(env, req) == Some(u.(passwd := "*****"))
    ensures u.admin ==> !Gated(req.path, SessionUser(env, req))
  {
    CookieRoundTrip(u, maxAge, issued, env.now, env.findUser, env.secret, env.sha1);
  }

  /** The auth gate: a gated request is redirected to /signin whatever the inner handler would do. */
  lemma AuthGate(env: Env, next: Handler, other: Handler, req: Request)
    ensures var user := SessionUser(env, req);
            && (Gated(req.path, user) ==>
                  AuthFactory(env, next)(req) == Reply(req.(user := user), Returned(PResponse(Found("/signin"))))
                  && AuthFactory(env, next)(req) == AuthFactory(env, other)(req))
            && (!Gated(req.path, user) ==> AuthFactory(env, next)(req) == next(req.(user := user)))
  {
  }

  /** An admin's session always passes the gate; without one, a `/manage/` path never does. */
  lemma AdminPasses(env: Env, req: Request)
    ensures SessionUser(env, req).Some? && SessionUser(env, req).value.admin ==> !Gated(req.path, SessionUser(env, req))
    ensures StartsWith(req.path, "/manage/") && SessionUser(env, req).None? ==> Gated(req.path, SessionUser(env, req))
  {
  }

  /** The user attached to the request is never stale: an earlier value of `__user__` is discarded. */
  lemma AuthResetsUser(env: Env, next: Handler, req: Request, stale: Option<User>)
    ensures AuthFactory(env, next)(req.(user := stale)) == AuthFactory(env, next)(req)
  {
    assert SessionUser(env, req.(user := stale)) == SessionUser(env, req);
    assert req.(user := stale).(user := SessionUser(env, req)) == req.(user := SessionUser(env, req));
  }

  // ================================================================ the pipeline

  /** Installs `stages` around `inner`, the first stage outermost. */
  function Chain(stages: seq<Stage>, inner: Handler): Handler
  {
    if stages == [] then inner else stages[0](Chain(stages[1..], inner))
  }

  /** Installing two lists of stages one after the other is installing their concatenation. */
  lemma {:induction false} ChainConcat(a: seq<Stage>, b: seq<Stage>, inner: Handler)
    ensures Chain(a + b, inner) == Chain(a, Chain(b, inner))
  {
    if a == [] {
      assert a + b == b;
    } else {
      assert (a + b)[0] == a[0];
      assert (a + b)[1..] == a[1..] + b;
      ChainConcat(a[1..], b, inner);
    }
  }

  /** `middlewares=[logger_factory, response_factory, data_factory, auth_factory]` */
  function Middlewares(env: Env): seq<Stage>
  {
    [LoggerFactory, next => ResponseFactory(env, next), DataFactory, next => AuthFactory(env, next)]
  }

  /** The route's handler with dispatch innermost: it sees the request as the stages left it. */
  function Endpoint(h: RequestHandler): Handler
  {
    req => Reply(req, Dispatch(h, req))
  }

  function Serve(env: Env, h: RequestHandler): Handler
  {
    Chain(Middlewares(env), Endpoint(h))
  }

  /** The installed order: logging outermost, then the response stage, then data, then auth around the handler. */
  lemma ServeNesting(env: Env, h: RequestHandler)
    ensures Serve(env, h) == LoggerFactory(ResponseFactory(env, DataFactory(AuthFactory(env, Endpoint(h)))))
  {
    var ms := Middlewares(env);
    ChainOfFour(ms[0], ms[1], ms[2], ms[3], Endpoint(h));
    assert ms == [ms[0], ms[1], ms[2], ms[3]];
  }

  lemma ChainOfFour(a: Stage, b: Stage, c: Stage, d: Stage, inner: Handler)
    ensures Chain([a, b, c, d], inner) == a(b(c(d(inner))))
  {
    assert [d][1..] == [];
    assert Chain([d], inner) == d(inner);
    assert [c, d][1..] == [d];
    assert Chain([c, d], inner) == c(Chain([d], inner));
    assert [b, c, d][1..] == [c, d];
    assert Chain([b, c, d], inner) == b(Chain([c, d], inner));
    assert [a, b, c, d][1..] == [b, c, d];
  }

  /**
   * One request end to end. The data stage runs before auth, so the handler sees
   * the decoded body and the session user; auth runs inside the response stage,
   * so a redirect from the gate passes through coercion unchanged and a template
   * is rendered with the user auth resolved; an exception from the handler
   * propagates out of every stage.
   */
  lemma ServeOneRequest(env: Env, h: RequestHandler, req: Request)
    ensures var seen := WithData(req).(user := SessionUser(env, req));
            && (Gated(req.path, seen.user) ==>
                  Serve(env, h)(req) == Reply(seen, Returned(PResponse(Found("/signin")))))
            && (!Gated(req.path, seen.user) && Dispatch(h, seen).Raised? ==>
                  Serve(env, h)(req) == Reply(seen, Dispatch(h, seen)))
            && (!Gated(req.path, seen.user) && Dispatch(h, seen).Returned? ==>
                  Serve(env, h)(req) == Reply(seen, Returned(Coerce(env, seen.user, Dispatch(h, seen).value))))
  {
    var data := DataFactory(AuthFactory(env, Endpoint(h)));
    var seen := WithData(req).(user := SessionUser(env, req));
    ServeThroughResponse(env, h, req);
    InnerReply(env, h, req);
    ResponseStep(env, data, req);
    if Gated(req.path, seen.user) {
      assert data(req) == Reply(seen, Returned(PResponse(Found("/signin"))));
      CoerceResponse(env, seen.user, Found("/signin"));
    } else {
      assert data(req) == Reply(seen, Dispatch(h, seen));
    }
  }

  lemma ServeThroughResponse(env: Env, h: RequestHandler, req: Request)
    ensures Serve(env, h)(req) == ResponseFactory(env, DataFactory(AuthFactory(env, Endpoint(h))))(req)
  {
    ServeNesting(env, h);
  }

  lemma CoerceResponse(env: Env, user: Option<User>, resp: Response)
    ensures Coerce(env, user, PResponse(resp)) == PResponse(resp)
  {
  }

  /** The response stage, for one request. */
  lemma ResponseStep(env: Env, next: Handler, req: Request)
    ensures var rep := next(req);
            ResponseFactory(env, next)(req)
            == if rep.outcome.Raised? then rep
               else Reply(rep.request, Returned(Coerce(env, rep.request.user, rep.outcome.value)))
  {
  }

  /** What the data and auth stages hand back to the response stage. */
  lemma InnerReply(env: Env, h: RequestHandler, req: Request)
    ensures var seen := WithData(req).(user := SessionUser(env, req));
            DataFactory(AuthFactory(env, Endpoint(h)))(req)
            == if Gated(req.path, seen.user) then Reply(seen, Returned(PResponse(Found("/signin"))))
               else Reply(seen, Dispatch(h, seen))
  {
    var auth := AuthFactory(env, Endpoint(h));
    var d := WithData(req);
    assert DataFactory(auth)(req) == auth(d);
    AuthStep(env, h, d);
    SessionIgnoresData(env, req, d);
  }

  /** The auth stage in front of the handler, for one request. */
  lemma AuthStep(env: Env, h: RequestHandler, req: Request)
    ensures var seen := req.(user := SessionUser(env, req));
            AuthFactory(env, Endpoint(h))(req)
            == if Gated(req.path, seen.user) then Reply(seen, Returned(PResponse(Found("/signin"))))
               else Reply(seen, Dispatch(h, seen))
  {
  }

  /** The session user depends on the cookies alone, so decoding the body does not change it. */
  lemma SessionIgnoresData(env: Env, req: Request, req': Request)
    requires req' == req.(data := req'.data)
    ensures SessionUser(env, req') == SessionUser(env, req)
  {
    assert req'.cookies == req.cookies;
  }

  /** Whatever the handler returns, a request that the handler does not answer with an exception gets a response. */
  lemma ServeAlwaysResponds(env: Env, h: RequestHandler, req: Request)
    requires Serve(env, h)(req).outcome.Returned?
    ensures Serve(env, h)(req).outcome.value.PResponse? || Serve(env, h)(req).outcome.value.PResponseClass?
  {
    ServeOneRequest(env, h, req);
  }

  // ================================================================ datetime_filter

  /** How long ago something happened, as `datetime_filter` buckets it. */
  datatype Ago = JustNow | Minutes(m: int) | Hours(h: int) | Days(d: int) | OnDate(year: int, month: int, day: int)

  /**
   * The bucket for `delta = now - t` seconds; `localDate` is `datetime.fromtimestamp`
   * reduced to (year, month, day) in the server's time zone.
   */
  function Bucket(t: int, now: int, localDate: int -> (int, int, int)): (a: Ago)
    ensures a.Minutes? ==> 1 <= a.m < 60 && a.m * 60 <= now - t < (a.m + 1) * 60
    ensures a.Hours? ==> 1 <= a.h < 24 && a.h * 3600 <= now - t < (a.h + 1) * 3600
    ensures a.Days? ==> 1 <= a.d < 7 && a.d * 86400 <= now - t < (a.d + 1) * 86400
    ensures a.JustNow? <==> now - t < 60
    ensures a.OnDate? <==> now - t >= 604800
    ensures a.OnDate? ==> (a.year, a.month, a.day) == localDate(t)
  {
    var delta := now - t;
    if delta < 60 then JustNow
    else if delta < 3600 then Minutes(delta / 60)
    else if delta < 86400 then Hours(delta / 3600)
    else if delta < 604800 then Days(delta / 86400)
    else
      var (y, m, d) := localDate(t);
      OnDate(y, m, d)
  }

  /** The text shown for a bucket. */
  function AgoText(a: Ago): string
  {
    match a
    case JustNow => "1分钟前"
    case Minutes(m) => IntToString(m) + "分钟前"
    case Hours(h) => IntToString(h) + "小时前"
    case Days(d) => IntToString(d) + "天前"
    case OnDate(y, m, d) => IntToString(y) + "年" + IntToString(m) + "月" + IntToString(d) + "日"
  }

  /** `datetime_filter(t)` at clock reading `now`. */
  function DatetimeFilter(t: int, now: int, localDate: int -> (int, int, int)): (s: string)
    ensures now - t < 60 ==> s == "1分钟前"
    ensures 60 <= now - t < 3600 ==> s == IntToString((now - t) / 60) + "分钟前"
    ensures 3600 <= now - t < 86400 ==> s == IntToString((now - t) / 3600) + "小时前"
    ensures 86400 <= now - t < 604800 ==> s == IntToString((now - t) / 86400) + "天前"
    ensures now - t >= 604800 ==>
              s == IntToString(localDate(t).0) + "年" + IntToString(localDate(t).1) + "月" + IntToString(localDate(t).2) + "日"
  {
    AgoText(Bucket(t, now, localDate))
  }

  /** Anything under a minute old, including a time in the future, reads "1 minute ago", as a whole minute does. */
  lemma UnderAMinute(t: int, now: int, localDate: int -> (int, int, int))
    requires now - t < 120
    ensures DatetimeFilter(t, now, localDate) == AgoText(JustNow)
  {
    if now - t >= 60 {
      assert Bucket(t, now, localDate) == Minutes(1);
    }
  }

  /** The bucket is chosen by the age alone until a week has passed. */
  lemma BucketIgnoresCalendar(t: int, now: int, f: int -> (int, int, int), g: int -> (int, int, int))
    requires now - t < 604800
    ensures Bucket(t, now, f) == Bucket(t, now, g)
  {
  }
}
