/**
 * The routing and argument-binding layer: the `get`/`post` route tags, the
 * classification of a handler's declared parameters, the per-request binding of
 * keyword arguments (`RequestHandler.__call__`) and route registration.
 */
module WebFrame {
  import opened Prelude
  import opened Text
  import opened Values

  // ================================================================ handlers and their parameters

  /** The five kinds of `inspect.Parameter`. */
  datatype ParamKind = PositionalOnly | PositionalOrKeyword | VarPositional | KeywordOnly | VarKeyword

  /** One declared parameter: its name, its kind and whether it has a default. */
  datatype Param = Param(name: string, kind: ParamKind, hasDefault: bool)

  /** The keyword arguments a handler is called with. */
  type Kwargs = map<string, PyValue>

  /**
   * A handler function as the framework sees it: its `__name__`, its declared
   * signature, what calling it with keyword arguments does, and the attributes
   * `__method__` and `__route__` (`None` when absent).
   */
  datatype Fn = Fn(name: string, params: seq<Param>, call: Kwargs -> Outcome,
                   httpMethod: Option<string>, route: Option<string>)

  /** Errors raised while routes are set up. */
  datatype ConfigError =
    | MissingRouteTags(fnName: string)  // '@get or @post not defined in ...'
    | RequestNotLast(fnName: string)    // 'request parameter must be the last named parameter ...'

  /**
   * `@get(path)`: a wrapper that forwards every call unchanged, keeps the wrapped
   * function's name and signature, and is tagged with method 'GET' and the path.
   */
  function Get(path: string, fn: Fn): (w: Fn)
    ensures w.httpMethod == Some("GET") && w.route == Some(path)
    ensures w.name == fn.name && w.params == fn.params
    ensures forall kw :: w.call(kw) == fn.call(kw)
  {
    Fn(fn.name, fn.params, kw => fn.call(kw), Some("GET"), Some(path))
  }

  /** `@post(path)`: as `Get`, tagged with method 'POST'. */
  function Post(path: string, fn: Fn): (w: Fn)
    ensures w.httpMethod == Some("POST") && w.route == Some(path)
    ensures w.name == fn.name && w.params == fn.params
    ensures forall kw :: w.call(kw) == fn.call(kw)
  {
    Fn(fn.name, fn.params, kw => fn.call(kw), Some("POST"), Some(path))
  }

  // ================================================================ signature classification

  predicate IsNamedKw(p: Param) { p.kind == KeywordOnly }

  predicate IsRequiredKw(p: Param) { p.kind == KeywordOnly && !p.hasDefault }

  /** Kinds that may follow the `request` parameter. */
  predicate AllowedAfterRequest(k: ParamKind) { k == VarPositional || k == KeywordOnly || k == VarKeyword }

  /** Names of the KEYWORD_ONLY parameters, in declaration order. */
  function NamedKwArgs(ps: seq<Param>): seq<string>
  {
    if ps == [] then []
    else NamedKwArgs(ps[..|ps| - 1]) + (if IsNamedKw(ps[|ps| - 1]) then [ps[|ps| - 1].name] else [])
  }

  /** Names of the KEYWORD_ONLY parameters that have no default, in declaration order. */
  function RequiredKwArgs(ps: seq<Param>): seq<string>
  {
    if ps == [] then []
    else RequiredKwArgs(ps[..|ps| - 1]) + (if IsRequiredKw(ps[|ps| - 1]) then [ps[|ps| - 1].name] else [])
  }

  ghost predicate DeclaresNamedKw(ps: seq<Param>) { exists i :: 0 <= i < |ps| && IsNamedKw(ps[i]) }

  ghost predicate DeclaresVarKw(ps: seq<Param>) { exists i :: 0 <= i < |ps| && ps[i].kind == VarKeyword }

  ghost predicate DeclaresRequest(ps: seq<Param>) { exists i :: 0 <= i < |ps| && ps[i].name == "request" }

  /** Some parameter after one named `request` is neither *args, keyword-only nor **kw. */
  ghost predicate RequestMisplaced(ps: seq<Param>)
  {
    exists i, j :: 0 <= i < j < |ps| && ps[i].name == "request"
                   && ps[j].name != "request" && !AllowedAfterRequest(ps[j].kind)
  }

  /** `a` can be obtained from `b` by deleting elements. */
  ghost predicate IsSubsequence(a: seq<string>, b: seq<string>)
  {
    if a == [] then true
    else if b == [] then false
    else (a[|a| - 1] == b[|b| - 1] && IsSubsequence(a[..|a| - 1], b[..|b| - 1]))
         || IsSubsequence(a, b[..|b| - 1])
  }

  lemma {:induction false} NamedKwArgsMembers(ps: seq<Param>, n: string)
    ensures n in NamedKwArgs(ps) <==> exists i :: 0 <= i < |ps| && ps[i].name == n && IsNamedKw(ps[i])
  {
    if ps != [] {
      var front := ps[..|ps| - 1];
      NamedKwArgsMembers(front, n);
      if exists i :: 0 <= i < |front| && front[i].name == n && IsNamedKw(front[i]) {
        var i :| 0 <= i < |front| && front[i].name == n && IsNamedKw(front[i]);
        assert ps[i] == front[i];
      }
      if exists i :: 0 <= i < |ps| && ps[i].name == n && IsNamedKw(ps[i]) {
        var i :| 0 <= i < |ps| && ps[i].name == n && IsNamedKw(ps[i]);
        if i < |front| { assert front[i] == ps[i]; }
      }
    }
  }

  lemma {:induction false} RequiredKwArgsMembers(ps: seq<Param>, n: string)
    ensures n in RequiredKwArgs(ps) <==> exists i :: 0 <= i < |ps| && ps[i].name == n && IsRequiredKw(ps[i])
  {
    if ps != [] {
      var front := ps[..|ps| - 1];
      RequiredKwArgsMembers(front, n);
      if exists i :: 0 <= i < |front| && front[i].name == n && IsRequiredKw(front[i]) {
        var i :| 0 <= i < |front| && front[i].name == n && IsRequiredKw(front[i]);
        assert ps[i] == front[i];
      }
      if exists i :: 0 <= i < |ps| && ps[i].name == n && IsRequiredKw(ps[i]) {
        var i :| 0 <= i < |ps| && ps[i].name == n && IsRequiredKw(ps[i]);
        if i < |front| { assert front[i] == ps[i]; }
      }
    }
  }

  /** The required keyword names are a subsequence of the keyword-only names: same order, nothing added. */
  lemma {:induction false} RequiredSubsequenceOfNamed(ps: seq<Param>)
    ensures IsSubsequence(RequiredKwArgs(ps), NamedKwArgs(ps))
  {
    if ps != [] {
      var front := ps[..|ps| - 1];
      var p := ps[|ps| - 1];
      RequiredSubsequenceOfNamed(front);
      var r, n := RequiredKwArgs(front), NamedKwArgs(front);
      assert ps[..|ps| - 1] == front;
      if IsRequiredKw(p) {
        assert RequiredKwArgs(ps) == r + [p.name] && NamedKwArgs(ps) == n + [p.name];
        assert (r + [p.name])[..|r|] == r && (n + [p.name])[..|n|] == n;
      } else if IsNamedKw(p) {
        assert RequiredKwArgs(ps) == r && NamedKwArgs(ps) == n + [p.name];
        SubsequenceOfLonger(r, n, p.name);
      } else {
        assert RequiredKwArgs(ps) == r && NamedKwArgs(ps) == n;
      }
    }
  }

  lemma SubsequenceOfLonger(a: seq<string>, b: seq<string>, x: string)
    requires IsSubsequence(a, b)
    ensures IsSubsequence(a, b + [x])
  {
    assert (b + [x])[..|b|] == b;
  }

  /** `has_named_kw_args` holds exactly when the keyword-only name list is non-empty. */
  lemma HasNamedIffNamedNonEmpty(ps: seq<Param>)
    ensures DeclaresNamedKw(ps) <==> |NamedKwArgs(ps)| > 0
  {
    if DeclaresNamedKw(ps) {
      var i :| 0 <= i < |ps| && IsNamedKw(ps[i]);
      NamedKwArgsMembers(ps, ps[i].name);
    }
    if |NamedKwArgs(ps)| > 0 {
      NamedKwArgsMembers(ps, NamedKwArgs(ps)[0]);
    }
  }

  /** Without keyword-only parameters there is nothing required either. */
  lemma NoNamedNoRequired(ps: seq<Param>)
    requires !DeclaresNamedKw(ps)
    ensures RequiredKwArgs(ps) == []
  {
    if RequiredKwArgs(ps) != [] {
      RequiredKwArgsMembers(ps, RequiredKwArgs(ps)[0]);
    }
  }

  /** `get_required_kw_args` */
  method GetRequiredKwArgs(fn: Fn) returns (args: seq<string>)
    ensures args == RequiredKwArgs(fn.params)
  {
    var ps := fn.params;
    args := [];
    for i := 0 to |ps|
      invariant args == RequiredKwArgs(ps[..i])
    {
      assert ps[..i + 1][..i] == ps[..i];
      if ps[i].kind == KeywordOnly && !ps[i].hasDefault {
        args := args + [ps[i].name];
      }
    }
    assert ps[..|ps|] == ps;
  }

  /** `get_named_kw_args` */
  method GetNamedKwArgs(fn: Fn) returns (args: seq<string>)
    ensures args == NamedKwArgs(fn.params)
  {
    var ps := fn.params;
    args := [];
    for i := 0 to |ps|
      invariant args == NamedKwArgs(ps[..i])
    {
      assert ps[..i + 1][..i] == ps[..i];
      if ps[i].kind == KeywordOnly {
        args := args + [ps[i].name];
      }
    }
    assert ps[..|ps|] == ps;
  }

  /** `has_named_kw_args`: returns at the first keyword-only parameter. */
  method HasNamedKwArgs(fn: Fn) returns (r: bool)
    ensures r <==> DeclaresNamedKw(fn.params)
  {
    var ps := fn.params;
    for i := 0 to |ps|
      invariant forall j :: 0 <= j < i ==> !IsNamedKw(ps[j])
    {
      if ps[i].kind == KeywordOnly {
        return true;
      }
    }
    return false;
  }

  /** `has_var_kw_arg`: returns at the first **kw parameter. */
  method HasVarKwArg(fn: Fn) returns (r: bool)
    ensures r <==> DeclaresVarKw(fn.params)
  {
    var ps := fn.params;
    for i := 0 to |ps|
      invariant forall j :: 0 <= j < i ==> ps[j].kind != VarKeyword
    {
      if ps[i].kind == VarKeyword {
        return true;
      }
    }
    return false;
  }

  /**
   * `has_request_arg`: whether a parameter is named `request`; fails as soon as a
   * later parameter is of a kind other than *args, keyword-only or **kw.
   */
  method HasRequestArg(fn: Fn) returns (r: Result<bool, ConfigError>)
    ensures r.Failure? <==> RequestMisplaced(fn.params)
    ensures r.Failure? ==> r.error == RequestNotLast(fn.name)
    ensures r.Success? ==> (r.value <==> DeclaresRequest(fn.params))
  {
    var ps := fn.params;
    var found := false;
    for i := 0 to |ps|
      invariant found <==> exists j :: 0 <= j < i && ps[j].name == "request"
      invariant forall a, b :: 0 <= a < b < i && ps[a].name == "request" && ps[b].name != "request"
                               ==> AllowedAfterRequest(ps[b].kind)
    {
      if ps[i].name == "request" {
        found := true;
        continue;
      }
      if found && ps[i].kind != VarPositional && ps[i].kind != KeywordOnly && ps[i].kind != VarKeyword {
        return Failure(RequestNotLast(fn.name));
      }
    }
    return Success(found);
  }

  // ================================================================ the request handler

  /** What `RequestHandler.__init__` stores: the function and its classified signature. */
  datatype RequestHandler = RequestHandler(
    func: Fn,
    hasRequestArg: bool,
    hasVarKwArg: bool,
    hasNamedKwArgs: bool,
    namedKwArgs: seq<string>,
    requiredKwArgs: seq<string>)

  /** The handler `__init__` builds for `fn` when `has_request_arg` does not raise. */
  ghost function PlanFor(fn: Fn): RequestHandler
  {
    RequestHandler(fn, DeclaresRequest(fn.params), DeclaresVarKw(fn.params), DeclaresNamedKw(fn.params),
                   NamedKwArgs(fn.params), RequiredKwArgs(fn.params))
  }

  /** Every handler `__init__` builds agrees with its function's signature. */
  ghost predicate Planned(h: RequestHandler)
  {
    && h.hasRequestArg == DeclaresRequest(h.func.params)
    && h.hasVarKwArg == DeclaresVarKw(h.func.params)
    && h.hasNamedKwArgs == DeclaresNamedKw(h.func.params)
    && h.namedKwArgs == NamedKwArgs(h.func.params)
    && h.requiredKwArgs == RequiredKwArgs(h.func.params)
  }

  /** `RequestHandler.__init__`, with the ValueError of `has_request_arg` as a failure. */
  method NewRequestHandler(fn: Fn) returns (r: Result<RequestHandler, ConfigError>)
    ensures r.Failure? <==> RequestMisplaced(fn.params)
    ensures r.Failure? ==> r.error == RequestNotLast(fn.name)
    ensures r.Success? ==> r.value == PlanFor(fn) && Planned(r.value)
  {
    var req := HasRequestArg(fn);
    if req.Failure? {
      return Failure(req.error);
    }
    var varKw := HasVarKwArg(fn);
    var named := HasNamedKwArgs(fn);
    var namedArgs := GetNamedKwArgs(fn);
    var required := GetRequiredKwArgs(fn);
    return Success(RequestHandler(fn, req.value, varKw, named, namedArgs, required));
  }

  // ---------------------------------------------------------------- binding, as specification

  /** `parse_qs(qs, True)`: each key with all of its values, in order of appearance. */
  function QueryGroups(pairs: seq<(string, string)>): (g: map<string, seq<string>>)
    ensures forall k :: k in g ==> |g[k]| > 0
  {
    if pairs == [] then map[]
    else
      var g := QueryGroups(pairs[..|pairs| - 1]);
      var (k, v) := pairs[|pairs| - 1];
      g[k := (if k in g then g[k] else []) + [v]]
  }

  /** The keyword arguments a query string yields: each key bound to its first value. */
  function QueryArgs(pairs: seq<(string, string)>): Kwargs
  {
    var g := QueryGroups(pairs);
    map k | k in g :: PStr(g[k][0])
  }

  /** The value of the first pair whose key is k, read from the front. */
  function FirstValueOf(pairs: seq<(string, string)>, k: string): Option<string>
  {
    if pairs == [] then None else if pairs[0].0 == k then Some(pairs[0].1) else FirstValueOf(pairs[1..], k)
  }

  lemma {:induction false} FirstValueOfSnoc(pairs: seq<(string, string)>, p: (string, string), k: string)
    ensures FirstValueOf(pairs + [p], k)
            == if FirstValueOf(pairs, k).Some? then FirstValueOf(pairs, k)
               else if p.0 == k then Some(p.1) else None
  {
    if pairs != [] {
      assert (pairs + [p])[1..] == pairs[1..] + [p];
      FirstValueOfSnoc(pairs[1..], p, k);
    }
  }

  /** A key is bound exactly when some pair carries it, and to the value of its first pair, blank or not. */
  lemma {:induction false} QueryArgsFirstValue(pairs: seq<(string, string)>, k: string)
    ensures k in QueryArgs(pairs) <==> FirstValueOf(pairs, k).Some?
    ensures k in QueryArgs(pairs) ==> QueryArgs(pairs)[k] == PStr(FirstValueOf(pairs, k).value)
  {
    if pairs != [] {
      var front := pairs[..|pairs| - 1];
      var p := pairs[|pairs| - 1];
      QueryArgsFirstValue(front, k);
      assert pairs == front + [p];
      FirstValueOfSnoc(front, p, k);
    }
  }

  /** No name occurs in two of the pairs. */
  ghost predicate UniqueNames(pairs: seq<(string, string)>)
  {
    forall i, j :: 0 <= i < j < |pairs| ==> pairs[i].0 != pairs[j].0
  }

  /** The names the pairs carry. */
  ghost function Names(pairs: seq<(string, string)>): set<string>
  {
    set i | 0 <= i < |pairs| :: pairs[i].0
  }

  /**
   * `dict(**params)` of the decoded form: the pairs inserted one by one; None
   * where a name comes back a second time, the TypeError ("got multiple values
   * for keyword argument") that unpacking raises.
   */
  function FormDict(pairs: seq<(string, string)>): Option<Kwargs>
  {
    if pairs == [] then Some(map[])
    else
      var front := FormDict(pairs[..|pairs| - 1]);
      var (k, v) := pairs[|pairs| - 1];
      if front.None? || k in front.value then None else Some(front.value[k := PStr(v)])
  }

  /** The form unpacks exactly when its names are distinct, and then binds every name to its value and nothing else. */
  lemma FormDictCases(pairs: seq<(string, string)>)
    ensures FormDict(pairs).Some? <==> UniqueNames(pairs)
    ensures FormDict(pairs).Some? ==>
              && FormDict(pairs).value.Keys == Names(pairs)
              && forall i :: 0 <= i < |pairs| ==> FormDict(pairs).value[pairs[i].0] == PStr(pairs[i].1)
  {
    FormDictDefined(pairs);
    if UniqueNames(pairs) {
      FormDictValues(pairs);
    }
  }

  lemma {:induction false} FormDictDefined(pairs: seq<(string, string)>)
    ensures FormDict(pairs).Some? <==> UniqueNames(pairs)
    ensures FormDict(pairs).Some? ==> FormDict(pairs).value.Keys == Names(pairs)
  {
    if pairs != [] {
      var front := pairs[..|pairs| - 1];
      FormDictDefined(front);
      NamesSnoc(pairs);
      UniqueSnoc(pairs);
    }
  }

  lemma {:induction false} FormDictValues(pairs: seq<(string, string)>)
    requires UniqueNames(pairs)
    ensures FormDict(pairs).Some?
    ensures forall i :: 0 <= i < |pairs| ==>
              pairs[i].0 in FormDict(pairs).value && FormDict(pairs).value[pairs[i].0] == PStr(pairs[i].1)
  {
    FormDictDefined(pairs);
    if pairs != [] {
      var front := pairs[..|pairs| - 1];
      var last := |pairs| - 1;
      UniqueSnoc(pairs);
      FormDictValues(front);
      FormDictDefined(front);
      var d := FormDict(pairs).value;
      assert d == FormDict(front).value[pairs[last].0 := PStr(pairs[last].1)];
      forall i | 0 <= i < |pairs|
        ensures pairs[i].0 in d && d[pairs[i].0] == PStr(pairs[i].1)
      {
        if i < last {
          assert front[i] == pairs[i];
          assert pairs[i].0 != pairs[last].0;
        }
      }
    }
  }

  lemma NamesSnoc(pairs: seq<(string, string)>)
    requires pairs != []
    ensures Names(pairs) == Names(pairs[..|pairs| - 1]) + {pairs[|pairs| - 1].0}
  {
    var front := pairs[..|pairs| - 1];
    forall n | n in Names(pairs) ensures n in Names(front) + {pairs[|pairs| - 1].0} {
      var i :| 0 <= i < |pairs| && pairs[i].0 == n;
      if i < |front| {
        assert front[i] == pairs[i];
      }
    }
    forall n | n in Names(front) ensures n in Names(pairs) {
      var i :| 0 <= i < |front| && front[i].0 == n;
      assert pairs[i] == front[i];
    }
  }

  lemma UniqueSnoc(pairs: seq<(string, string)>)
    requires pairs != []
    ensures UniqueNames(pairs) <==> UniqueNames(pairs[..|pairs| - 1]) && pairs[|pairs| - 1].0 !in Names(pairs[..|pairs| - 1])
  {
    var front := pairs[..|pairs| - 1];
    var last := |pairs| - 1;
    if UniqueNames(pairs) {
      forall n | n in Names(front) ensures n != pairs[last].0 {
        var i :| 0 <= i < |front| && front[i].0 == n;
        assert pairs[i] == front[i];
      }
      forall i, j | 0 <= i < j < |front| ensures front[i].0 != front[j].0 {
        assert front[i] == pairs[i] && front[j] == pairs[j];
      }
    }
    if UniqueNames(front) && pairs[last].0 !in Names(front) {
      forall i, j | 0 <= i < j < |pairs| ensures pairs[i].0 != pairs[j].0 {
        assert pairs[i] == front[i];
        if j < last {
          assert pairs[j] == front[j];
        } else {
          assert pairs[i].0 in Names(front);
        }
      }
    }
  }

  /** `dict(**request.match_info)` */
  function MatchInfoArgs(mi: map<string, string>): Kwargs
  {
    map k | k in mi :: PStr(mi[k])
  }

  /** `base` with the path captures of `keys` written over it. */
  function Overlay(base: Kwargs, mi: map<string, string>, keys: set<string>): Kwargs
    requires keys <= mi.Keys
  {
    map k | k in base.Keys + keys :: if k in keys then PStr(mi[k]) else base[k]
  }

  /** The entries of `kw` whose key is one of `names`. */
  function Restrict(kw: Kwargs, names: seq<string>): Kwargs
  {
    map n | n in names && n in kw :: kw[n]
  }

  /** The first of `names`, in order, that `kw` lacks. */
  function FirstMissing(names: seq<string>, kw: Kwargs): (r: Option<string>)
    ensures r.None? <==> forall i :: 0 <= i < |names| ==> names[i] in kw
    ensures r.Some? ==> exists i :: 0 <= i < |names| && names[i] == r.value && r.value !in kw
                                    && forall j :: 0 <= j < i ==> names[j] in kw
  {
    if names == [] then None
    else if names[0] !in kw then Some(names[0])
    else
      var r := FirstMissing(names[1..], kw);
      assert forall i :: 1 <= i < |names| ==> names[i] == names[1..][i - 1];
      r
  }

  /** The request data gathered before the path captures are merged in. */
  datatype Gathered = NoData | Gathered(kw: Kwargs) | Refused(message: string) | Crashed(exc: Exc)

  /** The first part of `__call__`: what the body or the query string supplies. */
  function Gather(h: RequestHandler, req: Request): (g: Gathered)
    ensures !(h.hasVarKwArg || h.hasNamedKwArgs) ==> g == NoData
    ensures req.httpMethod != "POST" && req.httpMethod != "GET" ==> g == NoData
    ensures g.Refused? || g.Crashed? ==> req.httpMethod == "POST"
    ensures g.Crashed? ==> g.exc == Fault("TypeError") && !UniqueNames(req.form)
  {
    if !(h.hasVarKwArg || h.hasNamedKwArgs) then NoData
    else if req.httpMethod == "POST" then
      if req.contentType == "" then Refused("Missing Content-Type!")
      else
        var ct := Lower(req.contentType);
        if StartsWith(ct, "application/json") then
          if req.json.PDict? then Gathered(req.json.entries) else Refused("JSON body must be object!")
        else if StartsWith(ct, "application/x-www-form-urlencoded") || StartsWith(ct, "multipart/form-data") then
          FormDictCases(req.form);
          var d := FormDict(req.form);
          if d.Some? then Gathered(d.value) else Crashed(Fault("TypeError"))
        else Refused("Unsupported Content-Type: " + req.contentType)
    else if req.httpMethod == "GET" && req.queryString != "" then Gathered(QueryArgs(req.query))
    else NoData
  }

  /** Without **kw but with keyword-only parameters, only those names survive. */
  function Filtered(h: RequestHandler, kw: Kwargs): Kwargs
  {
    if !h.hasVarKwArg && h.hasNamedKwArgs then Restrict(kw, h.namedKwArgs) else kw
  }

  /** The arguments before `request` is added and the required names are checked. */
  function Assembled(h: RequestHandler, req: Request, g: Gathered): Kwargs
    requires g.NoData? || g.Gathered?
  {
    match g
    case NoData => MatchInfoArgs(req.matchInfo)
    case Gathered(kw) => Overlay(Filtered(h, kw), req.matchInfo, req.matchInfo.Keys)
  }

  function WithRequest(h: RequestHandler, req: Request, kw: Kwargs): Kwargs
  {
    if h.hasRequestArg then kw["request" := PRequest(req)] else kw
  }

  /** How binding ends: a 400 answer, the arguments, or an exception raised before the call. */
  datatype Binding = Rejected(message: string) | Bound(kw: Kwargs) | Thrown(exc: Exc)

  /** Everything `__call__` does before it calls the function. */
  function BindArgs(h: RequestHandler, req: Request): (b: Binding)
    ensures b.Bound? ==> forall i :: 0 <= i < |h.requiredKwArgs| ==> h.requiredKwArgs[i] in b.kw
    ensures b.Bound? && h.hasRequestArg ==> "request" in b.kw && b.kw["request"] == PRequest(req)
    ensures b.Thrown? <==> Gather(h, req).Crashed?
  {
    var g := Gather(h, req);
    if g.Refused? then Rejected(g.message)
    else if g.Crashed? then Thrown(g.exc)
    else
      var kw := WithRequest(h, req, Assembled(h, req, g));
      var missing := FirstMissing(h.requiredKwArgs, kw);
      if missing.Some? then Rejected("Missing argument: " + missing.value) else Bound(kw)
  }

  function ApiErrorDict(e: string, d: string, m: string): map<string, PyValue>
  {
    map["error" := PStr(e), "data" := PStr(d), "message" := PStr(m)]
  }

  /** `try: return fn(**kw) except APIError as e: return dict(error=..., data=..., message=...)` */
  function Catch(o: Outcome): (r: Outcome)
    ensures r.Raised? ==> r == o && !r.exc.APIError?
    ensures o.Returned? ==> r == o
  {
    match o
    case Raised(APIError(e, d, m)) => Returned(PDict(ApiErrorDict(e, d, m)))
    case _ => o
  }

  /** `RequestHandler.__call__`, as specification. */
  function Dispatch(h: RequestHandler, req: Request): (r: Outcome)
    ensures BindArgs(h, req).Rejected? ==> r == Returned(PResponse(BadRequest(BindArgs(h, req).message)))
    ensures BindArgs(h, req).Thrown? ==> r == Raised(BindArgs(h, req).exc)
    ensures r.Raised? ==> !r.exc.APIError?
  {
    match BindArgs(h, req)
    case Rejected(msg) => Returned(PResponse(BadRequest(msg)))
    case Thrown(e) => Raised(e)
    case Bound(kw) => Catch(h.func.call(kw))
  }

  // ---------------------------------------------------------------- binding, as the source computes it

  /** The query-string branch of `__call__`: `parse_qs` grouped, then the first value of each key. */
  method QueryDict(pairs: seq<(string, string)>) returns (d: Kwargs)
    ensures d == QueryArgs(pairs)
  {
    var groups := QueryGroups(pairs);
    d := map[];
    var todo := groups.Keys;
    while todo != {}
      invariant todo <= groups.Keys
      invariant d == map k | k in groups.Keys - todo :: PStr(groups[k][0])
      decreases todo
    {
      var k :| k in todo;
      d := d[k := PStr(groups[k][0])];
      todo := todo - {k};
    }
  }

  /** The first part of `__call__`: reads the body of a POST or the query string of a GET. */
  method ReadRequestData(h: RequestHandler, req: Request) returns (g: Gathered)
    ensures g == Gather(h, req)
  {
    g := NoData;
    if h.hasVarKwArg || h.hasNamedKwArgs {
      if req.httpMethod == "POST" {
        if req.contentType == "" {
          return Refused("Missing Content-Type!");
        }
        var ct := Lower(req.contentType);
        if StartsWith(ct, "application/json") {
          if !req.json.PDict? {
            return Refused("JSON body must be object!");
          }
          g := Gathered(req.json.entries);
        } else if StartsWith(ct, "application/x-www-form-urlencoded") || StartsWith(ct, "multipart/form-data") {
          var d := FormDict(req.form);
          if d.None? {
            return Crashed(Fault("TypeError"));
          }
          g := Gathered(d.value);
        } else {
          return Refused("Unsupported Content-Type: " + req.contentType);
        }
      }
      if req.httpMethod == "GET" {
        if req.queryString != "" {
          var d := QueryDict(req.query);
          g := Gathered(d);
        }
      }
    }
  }

  /** The copy loop that keeps only the keyword-only names. */
  method KeepNamed(kw: Kwargs, names: seq<string>) returns (copy: Kwargs)
    ensures copy == Restrict(kw, names)
  {
    copy := map[];
    for i := 0 to |names|
      invariant copy == Restrict(kw, names[..i])
    {
      var name := names[i];
      assert names[..i + 1] == names[..i] + [name];
      if name in kw {
        copy := copy[name := kw[name]];
      }
    }
    assert names[..|names|] == names;
  }

  /** The loop that writes every path capture over the gathered arguments. */
  method ApplyCaptures(base: Kwargs, mi: map<string, string>) returns (args: Kwargs)
    ensures args == Overlay(base, mi, mi.Keys)
  {
    args := base;
    var todo := mi.Keys;
    while todo != {}
      invariant todo <= mi.Keys
      invariant args == Overlay(base, mi, mi.Keys - todo)
      decreases todo
    {
      var k :| k in todo;
      args := args[k := PStr(mi[k])];
      todo := todo - {k};
    }
  }

  /** The loop over the required names: the first one `kw` lacks, if any. */
  method CheckRequired(names: seq<string>, kw: Kwargs) returns (missing: Option<string>)
    ensures missing == FirstMissing(names, kw)
  {
    for i := 0 to |names|
      invariant FirstMissing(names, kw) == FirstMissing(names[i..], kw)
    {
      if names[i] !in kw {
        return Some(names[i]);
      }
      assert names[i..][1..] == names[i + 1..];
    }
    return None;
  }

  /** `RequestHandler.__call__`: gathers, filters, overlays, checks and calls. */
  method Call(h: RequestHandler, req: Request) returns (out: Outcome)
    ensures out == Dispatch(h, req)
  {
    var g := ReadRequestData(h, req);
    if g.Refused? {
      return Returned(PResponse(BadRequest(g.message)));
    }
    if g.Crashed? {
      return Raised(g.exc);
    }
    var args: Kwargs;
    if g.NoData? {
      args := MatchInfoArgs(req.matchInfo);
    } else {
      args := g.kw;
      if !h.hasVarKwArg && h.hasNamedKwArgs {
        args := KeepNamed(args, h.namedKwArgs);
      }
      args := ApplyCaptures(args, req.matchInfo);
    }
    if h.hasRequestArg {
      args := args["request" := PRequest(req)];
    }
    var missing := CheckRequired(h.requiredKwArgs, args);
    if missing.Some? {
      return Returned(PResponse(BadRequest("Missing argument: " + missing.value)));
    }
    var result := h.func.call(args);
    match result {
      case Raised(APIError(e, d, m)) =>
        out := Returned(PDict(ApiErrorDict(e, d, m)));
      case _ =>
        out := result;
    }
  }

  // ---------------------------------------------------------------- what binding promises

  /** A POST to a handler that takes keyword data is refused exactly in the three Content-Type cases. */
  lemma PostRefusals(h: RequestHandler, req: Request)
    requires h.hasVarKwArg || h.hasNamedKwArgs
    requires req.httpMethod == "POST"
    ensures req.contentType == ""
            ==> Dispatch(h, req) == Returned(PResponse(BadRequest("Missing Content-Type!")))
    ensures req.contentType != "" && StartsWith(Lower(req.contentType), "application/json") && !req.json.PDict?
            ==> Dispatch(h, req) == Returned(PResponse(BadRequest("JSON body must be object!")))
    ensures req.contentType != "" && !StartsWith(Lower(req.contentType), "application/json")
            && !StartsWith(Lower(req.contentType), "application/x-www-form-urlencoded")
            && !StartsWith(Lower(req.contentType), "multipart/form-data")
            ==> Dispatch(h, req) == Returned(PResponse(BadRequest("Unsupported Content-Type: " + req.contentType)))
    ensures Gather(h, req).Refused? <==>
            (req.contentType == ""
             || (StartsWith(Lower(req.contentType), "application/json") && !req.json.PDict?)
             || (!StartsWith(Lower(req.contentType), "application/json")
                 && !StartsWith(Lower(req.contentType), "application/x-www-form-urlencoded")
                 && !StartsWith(Lower(req.contentType), "multipart/form-data")))
  {
  }

  /**
   * A form POST to a handler that takes keyword data: a name sent twice makes
   * `dict(**params)` raise TypeError, which leaves `__call__` without a call;
   * otherwise every field is gathered under its name.
   */
  lemma FormBinding(h: RequestHandler, req: Request)
    requires h.hasVarKwArg || h.hasNamedKwArgs
    requires req.httpMethod == "POST" && req.contentType != ""
    requires !StartsWith(Lower(req.contentType), "application/json")
    requires StartsWith(Lower(req.contentType), "application/x-www-form-urlencoded")
             || StartsWith(Lower(req.contentType), "multipart/form-data")
    ensures !UniqueNames(req.form) ==> Dispatch(h, req) == Raised(Fault("TypeError"))
    ensures UniqueNames(req.form) ==>
              && Gather(h, req).Gathered?
              && Gather(h, req).kw.Keys == Names(req.form)
              && forall i :: 0 <= i < |req.form| ==> Gather(h, req).kw[req.form[i].0] == PStr(req.form[i].1)
  {
    FormDictCases(req.form);
  }

  /** Once binding rejects, the function is not called: any other function body gives the same result. */
  lemma RejectedNeverCalls(h: RequestHandler, req: Request, other: Kwargs -> Outcome)
    requires BindArgs(h, req).Rejected?
    ensures Dispatch(h, req) == Returned(PResponse(BadRequest(BindArgs(h, req).message)))
    ensures Dispatch(h.(func := h.func.(call := other)), req) == Dispatch(h, req)
  {
    var h' := h.(func := h.func.(call := other));
    var g := Gather(h, req);
    assert Gather(h', req) == g;
    if g.NoData? || g.Gathered? {
      assert Assembled(h', req, g) == Assembled(h, req, g);
      assert WithRequest(h', req, Assembled(h, req, g)) == WithRequest(h, req, Assembled(h, req, g));
    }
    assert BindArgs(h', req) == BindArgs(h, req);
  }

  /** A GET with a non-empty query string binds each key to its first value, blank values included. */
  lemma GetBindsFirstQueryValue(h: RequestHandler, req: Request, k: string)
    requires h.hasVarKwArg || h.hasNamedKwArgs
    requires req.httpMethod == "GET" && req.queryString != ""
    ensures Gather(h, req) == Gathered(QueryArgs(req.query))
    ensures k in Gather(h, req).kw <==> FirstValueOf(req.query, k).Some?
    ensures k in Gather(h, req).kw ==> Gather(h, req).kw[k] == PStr(FirstValueOf(req.query, k).value)
  {
    QueryArgsFirstValue(req.query, k);
  }

  /**
   * A handler with neither **kw nor keyword-only parameters, or a request that
   * supplies no data, is bound to the path captures alone (plus `request`), unfiltered.
   */
  lemma FallbackBindsMatchInfo(h: RequestHandler, req: Request)
    requires Planned(h)
    requires Gather(h, req).NoData?
    ensures !(h.hasVarKwArg || h.hasNamedKwArgs) ==> BindArgs(h, req).Bound?
    ensures BindArgs(h, req).Bound? ==>
              BindArgs(h, req).kw == WithRequest(h, req, MatchInfoArgs(req.matchInfo))
  {
    if !h.hasNamedKwArgs {
      NoNamedNoRequired(h.func.params);
    }
  }

  /**
   * Without **kw but with keyword-only parameters: a name is bound when it is a
   * path capture, or a declared keyword-only name the request supplies, or
   * `request`; `request` beats a capture, and a capture beats request data.
   */
  lemma NamedOnlyBinding(h: RequestHandler, req: Request, k: string)
    requires !h.hasVarKwArg && h.hasNamedKwArgs
    requires Gather(h, req).Gathered? && BindArgs(h, req).Bound?
    ensures var kw, src := BindArgs(h, req).kw, Gather(h, req).kw;
            && (k in kw <==> (k in req.matchInfo || (k in h.namedKwArgs && k in src) || (k == "request" && h.hasRequestArg)))
            && (k in kw && k == "request" && h.hasRequestArg ==> kw[k] == PRequest(req))
            && (k in kw && !(k == "request" && h.hasRequestArg) && k in req.matchInfo ==> kw[k] == PStr(req.matchInfo[k]))
            && (k in kw && !(k == "request" && h.hasRequestArg) && k !in req.matchInfo ==> kw[k] == src[k])
  {
  }

  /** With **kw every key the request supplies is kept; captures and `request` are written over it. */
  lemma VarKwBinding(h: RequestHandler, req: Request, k: string)
    requires h.hasVarKwArg
    requires Gather(h, req).Gathered? && BindArgs(h, req).Bound?
    ensures var kw, src := BindArgs(h, req).kw, Gather(h, req).kw;
            && (k in kw <==> (k in req.matchInfo || k in src || (k == "request" && h.hasRequestArg)))
            && (k in kw && !(k == "request" && h.hasRequestArg) && k !in req.matchInfo ==> kw[k] == src[k])
  {
  }

  /** A path capture always wins over request data of the same name; `request` wins over both. */
  lemma CapturesWin(h: RequestHandler, req: Request, k: string)
    requires BindArgs(h, req).Bound?
    requires k in req.matchInfo
    ensures k in BindArgs(h, req).kw
    ensures BindArgs(h, req).kw[k]
            == if k == "request" && h.hasRequestArg then PRequest(req) else PStr(req.matchInfo[k])
  {
  }

  /**
   * Binding fails on a missing required name exactly when the assembled map lacks
   * one, and names the first such name in declaration order; a bound map holds
   * every required name.
   */
  lemma MissingArgumentRule(h: RequestHandler, req: Request)
    requires Gather(h, req).NoData? || Gather(h, req).Gathered?
    ensures var kw := WithRequest(h, req, Assembled(h, req, Gather(h, req)));
            && (BindArgs(h, req).Bound? <==> forall i :: 0 <= i < |h.requiredKwArgs| ==> h.requiredKwArgs[i] in kw)
            && (BindArgs(h, req).Rejected? ==>
                  exists i :: 0 <= i < |h.requiredKwArgs| && h.requiredKwArgs[i] !in kw
                              && BindArgs(h, req).message == "Missing argument: " + h.requiredKwArgs[i]
                              && forall j :: 0 <= j < i ==> h.requiredKwArgs[j] in kw)
  {
  }

  /** An APIError from the function becomes the `{error, data, message}` dict; everything else passes through. */
  lemma ApiErrorBecomesDict(h: RequestHandler, req: Request)
    requires BindArgs(h, req).Bound?
    ensures h.func.call(BindArgs(h, req).kw).Raised? && h.func.call(BindArgs(h, req).kw).exc.APIError? ==>
              var e := h.func.call(BindArgs(h, req).kw).exc;
              Dispatch(h, req) == Returned(PDict(map["error" := PStr(e.error), "data" := PStr(e.data),
                                                     "message" := PStr(e.message)]))
    ensures !(h.func.call(BindArgs(h, req).kw).Raised? && h.func.call(BindArgs(h, req).kw).exc.APIError?) ==>
              Dispatch(h, req) == h.func.call(BindArgs(h, req).kw)
  {
  }

  // ================================================================ route registration

  /** One entry of the router's table. */
  datatype Route = Route(httpMethod: string, path: string, handler: RequestHandler)

  /** An attribute of a handler module: its name and whether its value is callable. */
  datatype AttrValue = Callable(fn: Fn) | NotCallable(value: PyValue)

  datatype Attr = Attr(name: string, value: AttrValue)

  predicate Truthy(a: Option<string>) { a.Some? && a.value != "" }

  /** What `add_route` raises for `fn`, if anything: the tag check first, then the signature check. */
  ghost function RouteError(fn: Fn): Option<ConfigError>
  {
    if fn.route.None? || fn.httpMethod.None? then Some(MissingRouteTags(fn.name))
    else if RequestMisplaced(fn.params) then Some(RequestNotLast(fn.name))
    else None
  }

  ghost function RouteFor(fn: Fn): Route
    requires RouteError(fn).None?
  {
    Route(fn.httpMethod.value, fn.route.value, PlanFor(fn))
  }

  /** The attributes `add_routes` hands to `add_route`. */
  predicate IsCandidate(a: Attr)
  {
    !StartsWith(a.name, "_") && a.value.Callable? && Truthy(a.value.fn.httpMethod) && Truthy(a.value.fn.route)
  }

  /** The functions `add_routes` registers, in the order the module's attributes are listed. */
  function Candidates(attrs: seq<Attr>): seq<Fn>
  {
    if attrs == [] then []
    else (if IsCandidate(attrs[0]) then [attrs[0].value.fn] else []) + Candidates(attrs[1..])
  }

  /** Registering `fns` in order: the routes added, and the error that stops the scan, if any. */
  ghost function Registration(fns: seq<Fn>): (seq<Route>, Option<ConfigError>)
  {
    if fns == [] then ([], None)
    else if RouteError(fns[0]).Some? then ([], RouteError(fns[0]))
    else
      var rest := Registration(fns[1..]);
      ([RouteFor(fns[0])] + rest.0, rest.1)
  }

  lemma RegistrationCons(fn: Fn, rest: seq<Fn>)
    ensures Registration([fn] + rest)
            == if RouteError(fn).Some? then ([], RouteError(fn))
               else ([RouteFor(fn)] + Registration(rest).0, Registration(rest).1)
  {
    assert ([fn] + rest)[0] == fn;
    assert ([fn] + rest)[1..] == rest;
  }

  /** What one attribute contributes to the scan: the routes it adds and the error it stops with. */
  ghost function AttrStep(a: Attr): (seq<Route>, Option<ConfigError>)
  {
    if !IsCandidate(a) then ([], None)
    else if RouteError(a.value.fn).Some? then ([], RouteError(a.value.fn))
    else ([RouteFor(a.value.fn)], None)
  }

  /** The scan attribute by attribute: each step, until one fails. */
  ghost function Scan(attrs: seq<Attr>): (seq<Route>, Option<ConfigError>)
  {
    if attrs == [] then ([], None)
    else
      var step := AttrStep(attrs[0]);
      if step.1.Some? then step
      else
        var rest := Scan(attrs[1..]);
        (step.0 + rest.0, rest.1)
  }

  lemma ScanSuffixStep(attrs: seq<Attr>, i: nat)
    requires i < |attrs|
    ensures var step, next := AttrStep(attrs[i]), Scan(attrs[i + 1..]);
            Scan(attrs[i..]) == if step.1.Some? then step else (step.0 + next.0, next.1)
  {
    assert attrs[i..][0] == attrs[i];
    assert attrs[i..][1..] == attrs[i + 1..];
  }

  lemma AppendAssoc<T>(a: seq<T>, b: seq<T>, c: seq<T>)
    ensures a + (b + c) == (a + b) + c
  {
  }

  /** Scanning attribute by attribute is registering the candidates in order. */
  lemma {:induction false} ScanIsRegistration(attrs: seq<Attr>)
    ensures Scan(attrs) == Registration(Candidates(attrs))
  {
    if attrs != [] {
      ScanIsRegistration(attrs[1..]);
      var later := Candidates(attrs[1..]);
      if IsCandidate(attrs[0]) {
        RegistrationCons(attrs[0].value.fn, later);
      } else {
        assert Candidates(attrs) == later;
        assert [] + Scan(attrs[1..]).0 == Scan(attrs[1..]).0;
      }
    }
  }

  /** Candidates are exactly the callable, non-underscore attributes with truthy tags, in order. */
  lemma {:induction false} CandidatesExactly(attrs: seq<Attr>)
    ensures forall k :: 0 <= k < |Candidates(attrs)| ==>
              exists i :: 0 <= i < |attrs| && IsCandidate(attrs[i]) && Candidates(attrs)[k] == attrs[i].value.fn
    ensures forall i :: 0 <= i < |attrs| && IsCandidate(attrs[i]) ==> attrs[i].value.fn in Candidates(attrs)
  {
    if attrs != [] {
      CandidatesExactly(attrs[1..]);
      var head := if IsCandidate(attrs[0]) then [attrs[0].value.fn] else [];
      var rest := Candidates(attrs[1..]);
      assert Candidates(attrs) == head + rest;
      forall k | 0 <= k < |Candidates(attrs)|
        ensures exists i :: 0 <= i < |attrs| && IsCandidate(attrs[i]) && Candidates(attrs)[k] == attrs[i].value.fn
      {
        if k < |head| {
          assert IsCandidate(attrs[0]) && Candidates(attrs)[k] == attrs[0].value.fn;
        } else {
          assert Candidates(attrs)[k] == rest[k - |head|];
          var i :| 0 <= i < |attrs[1..]| && IsCandidate(attrs[1..][i]) && rest[k - |head|] == attrs[1..][i].value.fn;
          assert attrs[i + 1] == attrs[1..][i];
          assert IsCandidate(attrs[i + 1]) && Candidates(attrs)[k] == attrs[i + 1].value.fn;
        }
      }
      forall i | 0 <= i < |attrs| && IsCandidate(attrs[i]) ensures attrs[i].value.fn in Candidates(attrs) {
        if i > 0 {
          assert attrs[1..][i - 1] == attrs[i];
        }
      }
    } else {
      assert |Candidates(attrs)| == 0;
    }
  }

  /** A candidate always carries both tags, so the scan never meets the '@get or @post not defined' error. */
  lemma {:induction false} CandidatesAreTagged(attrs: seq<Attr>)
    ensures forall k :: 0 <= k < |Candidates(attrs)| ==>
              Truthy(Candidates(attrs)[k].httpMethod) && Truthy(Candidates(attrs)[k].route)
              && RouteError(Candidates(attrs)[k]) != Some(MissingRouteTags(Candidates(attrs)[k].name))
  {
    if attrs != [] {
      CandidatesAreTagged(attrs[1..]);
      var head := if IsCandidate(attrs[0]) then [attrs[0].value.fn] else [];
      assert Candidates(attrs) == head + Candidates(attrs[1..]);
      forall k | 0 <= k < |Candidates(attrs)|
        ensures Truthy(Candidates(attrs)[k].httpMethod) && Truthy(Candidates(attrs)[k].route)
        ensures RouteError(Candidates(attrs)[k]) != Some(MissingRouteTags(Candidates(attrs)[k].name))
      {
        if k >= |head| {
          assert Candidates(attrs)[k] == Candidates(attrs[1..])[k - |head|];
        }
      }
    }
  }

  /** A function decorated with `@get(path)` under a public name and a non-empty path is registered with its own plan. */
  lemma DecoratedIsRegistered(name: string, path: string, fn: Fn)
    requires !StartsWith(name, "_") && path != ""
    requires !RequestMisplaced(fn.params)
    ensures IsCandidate(Attr(name, Callable(Get(path, fn))))
    ensures RouteError(Get(path, fn)).None?
    ensures var r := RouteFor(Get(path, fn));
            && r.httpMethod == "GET" && r.path == path
            && r.handler.hasRequestArg == PlanFor(fn).hasRequestArg
            && r.handler.hasVarKwArg == PlanFor(fn).hasVarKwArg
            && r.handler.hasNamedKwArgs == PlanFor(fn).hasNamedKwArgs
            && r.handler.namedKwArgs == PlanFor(fn).namedKwArgs
            && r.handler.requiredKwArgs == PlanFor(fn).requiredKwArgs
  {
  }

  /** An attribute whose name starts with '_' is never registered, whatever it holds. */
  lemma UnderscoreNeverCandidate(a: Attr)
    requires StartsWith(a.name, "_")
    ensures Candidates([a]) == []
  {
  }

  /** A scan that raises nothing registers one route per candidate, in order, each with its function's plan. */
  lemma {:induction false} RegistrationComplete(fns: seq<Fn>)
    requires Registration(fns).1.None?
    ensures |Registration(fns).0| == |fns|
    ensures forall k :: 0 <= k < |fns| ==> RouteError(fns[k]).None? && Registration(fns).0[k] == RouteFor(fns[k])
  {
    if fns != [] {
      RegistrationComplete(fns[1..]);
      forall k | 0 <= k < |fns| ensures RouteError(fns[k]).None? && Registration(fns).0[k] == RouteFor(fns[k]) {
        if k > 0 {
          assert fns[k] == fns[1..][k - 1];
        }
      }
    }
  }

  /** The server's route table: `app.router`, to which `add_route` appends. */
  class Router {
    var routes: seq<Route>

    constructor ()
      ensures routes == []
    {
      routes := [];
    }

    /** `add_route`: checks the tags, builds the request handler and appends the route. */
    method AddRoute(fn: Fn) returns (err: Option<ConfigError>)
      modifies this
      ensures err == RouteError(fn)
      ensures err.None? ==> routes == old(routes) + [RouteFor(fn)]
      ensures err.Some? ==> routes == old(routes)
    {
      if fn.route.None? || fn.httpMethod.None? {
        return Some(MissingRouteTags(fn.name));
      }
      var handler := NewRequestHandler(fn);
      if handler.Failure? {
        return Some(handler.error);
      }
      routes := routes + [Route(fn.httpMethod.value, fn.route.value, handler.value)];
      return None;
    }

    /** One attribute of the `add_routes` scan: skipped unless it is a candidate, else `add_route`. */
    method ScanAttr(a: Attr) returns (err: Option<ConfigError>)
      modifies this
      ensures err == AttrStep(a).1
      ensures routes == old(routes) + AttrStep(a).0
    {
      if StartsWith(a.name, "_") {
        return None;
      }
      if a.value.Callable? {
        var fn := a.value.fn;
        if fn.httpMethod.Some? && fn.httpMethod.value != "" && fn.route.Some? && fn.route.value != "" {
          err := AddRoute(fn);
          return;
        }
      }
      return None;
    }

    /**
     * The scan of `add_routes` over a module's attributes, listed in the order
     * `dir()` gives them: registers every candidate and stops at the first error.
     */
    method AddRoutes(attrs: seq<Attr>) returns (err: Option<ConfigError>)
      modifies this
      ensures routes == old(routes) + Registration(Candidates(attrs)).0
      ensures err == Registration(Candidates(attrs)).1
    {
      ghost var added: seq<Route> := [];
      for i := 0 to |attrs|
        invariant routes == old(routes) + added
        invariant Scan(attrs).0 == added + Scan(attrs[i..]).0
        invariant Scan(attrs).1 == Scan(attrs[i..]).1
      {
        ScanSuffixStep(attrs, i);
        ghost var step := AttrStep(attrs[i]);
        err := ScanAttr(attrs[i]);
        if err.Some? {
          ScanIsRegistration(attrs);
          return;
        }
        AppendAssoc(old(routes), added, step.0);
        AppendAssoc(added, step.0, Scan(attrs[i + 1..]).0);
        added := added + step.0;
      }
      assert attrs[|attrs|..] == [];
      ScanIsRegistration(attrs);
      err := None;
    }
  }
}
