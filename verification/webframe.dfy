/** The request-handler layer (webframe.py): the `@get`/`@post` route tags,
    the classification of a handler's signature, and the binding of one
    request's arguments to keyword arguments for the handler, and the
    registration of tagged handlers as routes. Parsing of the
    request body and the query string is done by the HTTP library and arrives
    here already parsed; the handler itself is a parameter. */
module Webframe {
  import opened Wrappers
  import opened PyValue
  import opened Text
  import opened Http

  // ---------------------------------------------------------------------------
  // Route tags

  /** A handler wrapped by `@get(path)` or `@post(path)`: the same callable,
      carrying `__method__` and `__route__`. */
  datatype Tagged<H> = Tagged(handler: H, verb: string, route: string)

  /** The decorator both `@get` and `@post` build, for their method. */
  function Tag<H>(verb: string, path: string, h: H): (w: Tagged<H>)
    ensures w.handler == h && w.verb == verb && w.route == path
  {
    Tagged(h, verb, path)
  }

  function Get<H>(path: string, h: H): Tagged<H>
  {
    Tag("GET", path, h)
  }

  function Post<H>(path: string, h: H): Tagged<H>
  {
    Tag("POST", path, h)
  }

  // ---------------------------------------------------------------------------
  // Signatures

  /** `inspect.Parameter.kind`. */
  datatype Kind = PositionalOnly | PositionalOrKeyword | VarPositional | KeywordOnly | VarKeyword

  /** One parameter of a handler's signature, in declaration order. */
  datatype Param = Param(name: string, kind: Kind, hasDefault: bool)

  /** The `ValueError` raised when `request` is followed by a parameter that
      could be bound positionally. */
  datatype SignatureError = RequestNotLast

  /** Kinds allowed after `request`: `*args`, keyword-only and `**kw`. */
  predicate AfterRequest(k: Kind)
  {
    k == VarPositional || k == KeywordOnly || k == VarKeyword
  }

  /** The loop of `has_request_arg` from a point where `found` says whether a
      parameter named `request` was already seen. */
  function ScanRequest(ps: seq<Param>, found: bool): Result<bool, SignatureError>
  {
    if |ps| == 0 then Ok(found)
    else if ps[0].name == "request" then ScanRequest(ps[1..], true)
    else if found && !AfterRequest(ps[0].kind) then Err(RequestNotLast)
    else ScanRequest(ps[1..], found)
  }

  function HasRequestArg(ps: seq<Param>): Result<bool, SignatureError>
  {
    ScanRequest(ps, false)
  }

  /** Some parameter after one named `request` has another name and a kind
      that is not allowed there. */
  ghost predicate Misplaced(ps: seq<Param>)
  {
    exists i, j :: 0 <= i < j < |ps| && ps[i].name == "request" && ps[j].name != "request" && !AfterRequest(ps[j].kind)
  }

  ghost predicate Offending(ps: seq<Param>)
  {
    exists j :: 0 <= j < |ps| && ps[j].name != "request" && !AfterRequest(ps[j].kind)
  }

  ghost predicate NamesRequest(ps: seq<Param>)
  {
    exists i :: 0 <= i < |ps| && ps[i].name == "request"
  }

  lemma MisplacedCons(ps: seq<Param>)
    requires |ps| > 0
    ensures Misplaced(ps) <==> (ps[0].name == "request" && Offending(ps[1..])) || Misplaced(ps[1..])
  {
    var rest := ps[1..];
    if Misplaced(ps) {
      var i, j :| 0 <= i < j < |ps| && ps[i].name == "request" && ps[j].name != "request" && !AfterRequest(ps[j].kind);
      assert rest[j - 1] == ps[j];
      if i > 0 {
        assert rest[i - 1] == ps[i];
      }
    }
    if Misplaced(rest) {
      var i, j :| 0 <= i < j < |rest| && rest[i].name == "request" && rest[j].name != "request" && !AfterRequest(rest[j].kind);
      assert ps[i + 1] == rest[i] && ps[j + 1] == rest[j];
    }
    if ps[0].name == "request" && Offending(rest) {
      var j :| 0 <= j < |rest| && rest[j].name != "request" && !AfterRequest(rest[j].kind);
      assert ps[j + 1] == rest[j];
    }
  }

  lemma OffendingCons(ps: seq<Param>)
    requires |ps| > 0
    ensures Offending(ps) <==> (ps[0].name != "request" && !AfterRequest(ps[0].kind)) || Offending(ps[1..])
  {
    var rest := ps[1..];
    if Offending(ps) {
      var j :| 0 <= j < |ps| && ps[j].name != "request" && !AfterRequest(ps[j].kind);
      if j > 0 {
        assert rest[j - 1] == ps[j];
      }
    }
    if Offending(rest) {
      var j :| 0 <= j < |rest| && rest[j].name != "request" && !AfterRequest(rest[j].kind);
      assert ps[j + 1] == rest[j];
    }
  }

  lemma NamesRequestCons(ps: seq<Param>)
    requires |ps| > 0
    ensures NamesRequest(ps) <==> ps[0].name == "request" || NamesRequest(ps[1..])
  {
    var rest := ps[1..];
    if NamesRequest(ps) {
      var i :| 0 <= i < |ps| && ps[i].name == "request";
      if i > 0 {
        assert rest[i - 1] == ps[i];
      }
    }
    if NamesRequest(rest) {
      var i :| 0 <= i < |rest| && rest[i].name == "request";
      assert ps[i + 1] == rest[i];
    }
  }

  lemma {:induction false} ScanRequestSpec(ps: seq<Param>, found: bool)
    ensures ScanRequest(ps, found).Err? <==> (found && Offending(ps)) || Misplaced(ps)
    ensures ScanRequest(ps, found).Ok? ==> (ScanRequest(ps, found).value <==> found || NamesRequest(ps))
  {
    if |ps| > 0 {
      MisplacedCons(ps);
      OffendingCons(ps);
      NamesRequestCons(ps);
      if ps[0].name == "request" {
        ScanRequestSpec(ps[1..], true);
      } else {
        ScanRequestSpec(ps[1..], found);
      }
    }
  }

  /** `has_request_arg`: true exactly when a parameter is named `request`, and
      a `ValueError` exactly when a later parameter is neither `*args`,
      keyword-only nor `**kw`. */
  lemma HasRequestArgSpec(ps: seq<Param>)
    ensures HasRequestArg(ps).Err? <==> Misplaced(ps)
    ensures HasRequestArg(ps).Ok? ==> (HasRequestArg(ps).value <==> NamesRequest(ps))
  {
    ScanRequestSpec(ps, false);
  }

  /** Whether some parameter has kind `k` (`has_named_kw_args` for keyword-only,
      `has_var_kw_arg` for `**kw`; the source returns `None` rather than
      `False` when there is none, which callers only test for truth). */
  function HasKind(ps: seq<Param>, k: Kind): (r: bool)
    ensures r <==> exists i :: 0 <= i < |ps| && ps[i].kind == k
  {
    if |ps| == 0 then false
    else if ps[0].kind == k then (assert ps[0].kind == k; true)
    else
      var r := HasKind(ps[1..], k);
      assert forall i :: 1 <= i < |ps| ==> ps[i] == ps[1..][i - 1];
      r
  }

  function HasNamedKwArgs(ps: seq<Param>): bool
  {
    HasKind(ps, KeywordOnly)
  }

  function HasVarKwArg(ps: seq<Param>): bool
  {
    HasKind(ps, VarKeyword)
  }

  /** The parameter names in declaration order. */
  function ParamNames(ps: seq<Param>): (ns: seq<string>)
    ensures |ns| == |ps| && forall i :: 0 <= i < |ps| ==> ns[i] == ps[i].name
  {
    if |ps| == 0 then [] else [ps[0].name] + ParamNames(ps[1..])
  }

  /** `get_named_kw_args`: the keyword-only names, in declaration order. */
  function NamedKwArgs(ps: seq<Param>): (ns: seq<string>)
    ensures |ns| <= |ps|
    ensures Subsequence(ns, ParamNames(ps))
    ensures forall n :: n in ns <==> exists i :: 0 <= i < |ps| && ps[i].kind == KeywordOnly && ps[i].name == n
  {
    if |ps| == 0 then []
    else
      var rest := NamedKwArgs(ps[1..]);
      assert forall i :: 1 <= i < |ps| ==> ps[i] == ps[1..][i - 1];
      assert ParamNames(ps) == [ps[0].name] + ParamNames(ps[1..]);
      if ps[0].kind == KeywordOnly then
        assert ([ps[0].name] + rest)[1..] == rest;
        [ps[0].name] + rest
      else
        SubsequenceCons(rest, ParamNames(ps[1..]), ps[0].name);
        rest
  }

  /** `get_required_kw_args`: the keyword-only names without a default, in
      declaration order. */
  function RequiredKwArgs(ps: seq<Param>): (ns: seq<string>)
    ensures |ns| <= |ps|
    ensures Subsequence(ns, ParamNames(ps))
    ensures forall n :: n in ns <==>
      exists i :: 0 <= i < |ps| && ps[i].kind == KeywordOnly && !ps[i].hasDefault && ps[i].name == n
  {
    if |ps| == 0 then []
    else
      var rest := RequiredKwArgs(ps[1..]);
      assert forall i :: 1 <= i < |ps| ==> ps[i] == ps[1..][i - 1];
      assert ParamNames(ps) == [ps[0].name] + ParamNames(ps[1..]);
      if ps[0].kind == KeywordOnly && !ps[0].hasDefault then
        assert ([ps[0].name] + rest)[1..] == rest;
        [ps[0].name] + rest
      else
        SubsequenceCons(rest, ParamNames(ps[1..]), ps[0].name);
        rest
  }

  /** `a` is `b` with some elements dropped, order kept. */
  predicate Subsequence<T(==)>(a: seq<T>, b: seq<T>)
  {
    if |a| == 0 then true
    else if |b| == 0 then false
    else if a[0] == b[0] then Subsequence(a[1..], b[1..])
    else Subsequence(a, b[1..])
  }

  /** Dropping the first element of a subsequence leaves a subsequence. */
  lemma {:induction false} SubsequenceDropHead<T>(a: seq<T>, b: seq<T>)
    requires |a| > 0 && Subsequence(a, b)
    ensures Subsequence(a[1..], b)
    decreases |b|, 0
  {
    if |b| > 0 {
      if a[0] == b[0] {
        SubsequenceCons(a[1..], b[1..], b[0]);
        assert [b[0]] + b[1..] == b;
      } else {
        SubsequenceDropHead(a, b[1..]);
        SubsequenceCons(a[1..], b[1..], b[0]);
        assert [b[0]] + b[1..] == b;
      }
    }
  }

  /** Prepending any element keeps a subsequence a subsequence (by skipping it). */
  lemma {:induction false} SubsequenceCons<T>(a: seq<T>, b: seq<T>, x: T)
    requires Subsequence(a, b)
    ensures Subsequence(a, [x] + b)
    decreases |b|, 1
  {
    assert ([x] + b)[1..] == b;
    if |a| > 0 && a[0] == x {
      SubsequenceDropHead(a, b);
    }
  }

  /** The required names are the named ones with those having a default dropped. */
  lemma {:induction false} RequiredAreNamed(ps: seq<Param>)
    ensures Subsequence(RequiredKwArgs(ps), NamedKwArgs(ps))
  {
    if |ps| > 0 {
      RequiredAreNamed(ps[1..]);
      var req := RequiredKwArgs(ps[1..]);
      var named := NamedKwArgs(ps[1..]);
      if ps[0].kind == KeywordOnly {
        if !ps[0].hasDefault {
          assert ([ps[0].name] + req)[1..] == req;
          assert ([ps[0].name] + named)[1..] == named;
        } else {
          SubsequenceCons(req, named, ps[0].name);
        }
      }
    }
  }

  /** `has_named_kw_args` holds exactly when `get_named_kw_args` is non-empty. */
  lemma NamedIffAny(ps: seq<Param>)
    ensures HasNamedKwArgs(ps) <==> |NamedKwArgs(ps)| > 0
  {
    var named := NamedKwArgs(ps);
    if |named| > 0 {
      assert named[0] in named;
    }
    if HasNamedKwArgs(ps) {
      var i :| 0 <= i < |ps| && ps[i].kind == KeywordOnly;
      assert ps[i].name in named;
    }
  }

  /** What `RequestHandler.__init__` records about a handler. */
  datatype Binding = Binding(
    hasRequestArg: bool,
    hasVarKwArg: bool,
    hasNamedKwArgs: bool,
    named: seq<string>,
    required: seq<string>)

  function Classify(ps: seq<Param>): (r: Result<Binding, SignatureError>)
    ensures r.Err? <==> Misplaced(ps)
    ensures r.Ok? ==>
      && (r.value.hasRequestArg <==> NamesRequest(ps))
      && (r.value.hasNamedKwArgs <==> |r.value.named| > 0)
      && Subsequence(r.value.required, r.value.named)
  {
    HasRequestArgSpec(ps);
    RequiredAreNamed(ps);
    NamedIffAny(ps);
    var req :- HasRequestArg(ps);
    Ok(Binding(req, HasVarKwArg(ps), HasNamedKwArgs(ps), NamedKwArgs(ps), RequiredKwArgs(ps)))
  }

  // ---------------------------------------------------------------------------
  // Requests

  /** An incoming request with its body and query already parsed by the
      library. `contentType` is `""` when absent. `json` is what
      `request.json()` decodes; `form` the pairs `request.post()` reads; `query`
      the pairs of `parse_qs(query_string, True)` in order of appearance. */
  datatype Request = Request(
    verb: string,
    contentType: string,
    json: Value,
    form: seq<(string, Value)>,
    queryString: string,
    query: seq<(string, string)>,
    matchInfo: map<string, string>)

  /** A dictionary from pairs where the first occurrence of a name wins, as
      `dict(**multidict)` and `v[0]` of `parse_qs` do. */
  function FirstValues<V>(pairs: seq<(string, V)>): (m: map<string, V>)
    ensures forall k :: k in m <==> exists i :: 0 <= i < |pairs| && pairs[i].0 == k
  {
    if |pairs| == 0 then map[]
    else
      var rest := FirstValues(pairs[1..]);
      assert forall i :: 1 <= i < |pairs| ==> pairs[i] == pairs[1..][i - 1];
      rest[pairs[0].0 := pairs[0].1]
  }

  /** A name maps to the value of its first pair. */
  lemma {:induction false} FirstValuesSpec<V>(pairs: seq<(string, V)>, i: nat)
    requires i < |pairs|
    requires forall j :: 0 <= j < i ==> pairs[j].0 != pairs[i].0
    ensures pairs[i].0 in FirstValues(pairs) && FirstValues(pairs)[pairs[i].0] == pairs[i].1
  {
    if i > 0 {
      FirstValuesSpec(pairs[1..], i - 1);
    }
  }

  function QueryValues(query: seq<(string, string)>): seq<(string, Value)>
  {
    seq(|query|, i requires 0 <= i < |query| => (query[i].0, Str(query[i].1)))
  }

  function Strs(m: map<string, string>): (r: map<string, Value>)
    ensures r.Keys == m.Keys
    ensures forall k :: k in m ==> r[k] == Str(m[k])
  {
    map k | k in m :: Str(m[k])
  }

  const JsonType := "application/json"
  const FormType := "application/x-www-form-urlencoded"
  const MultipartType := "multipart/form-data"

  /** The POST branch: the body as a dictionary, or the `HTTPBadRequest` returned
      for a missing or unsupported content type or a JSON body that is not an
      object. Content types are compared lower-cased by prefix. */
  function PostArgs(req: Request): (r: Result<map<string, Value>, Response>)
    ensures req.contentType == "" ==> r == Err(BadRequest("Missing Content-Type."))
    ensures r.Err? ==> r.error.BadRequest?
    ensures r.Ok? <==>
      req.contentType != "" &&
      ((StartsWith(Lower(req.contentType), JsonType) && req.json.Dict?)
       || (!StartsWith(Lower(req.contentType), JsonType)
           && (StartsWith(Lower(req.contentType), FormType) || StartsWith(Lower(req.contentType), MultipartType))))
    ensures r.Ok? && StartsWith(Lower(req.contentType), JsonType) ==> r.value == req.json.entries
    ensures r.Ok? && !StartsWith(Lower(req.contentType), JsonType) ==> r.value == FirstValues(req.form)
  {
    if req.contentType == "" then Err(BadRequest("Missing Content-Type."))
    else
      var ct := Lower(req.contentType);
      if StartsWith(ct, JsonType) then
        if req.json.Dict? then Ok(req.json.entries) else Err(BadRequest("JSON body must be object."))
      else if StartsWith(ct, FormType) || StartsWith(ct, MultipartType) then
        Ok(FirstValues(req.form))
      else Err(BadRequest("Unsupported Content-Type: " + req.contentType))
  }

  /** Whether the handler takes keyword arguments from the body or the query. */
  predicate WantsKeywords(b: Binding)
  {
    b.hasVarKwArg || b.hasNamedKwArgs || |b.required| > 0
  }

  /** The dictionary built from the body (POST) or a non-empty query string
      (GET), `None` when none is built, or the response that ends the request. */
  function Collected(b: Binding, req: Request): Result<Option<map<string, Value>>, Response>
  {
    if !WantsKeywords(b) then Ok(None)
    else if req.verb == "POST" then
      var kw :- PostArgs(req);
      Ok(Some(kw))
    else if req.verb == "GET" && req.queryString != "" then
      Ok(Some(FirstValues(QueryValues(req.query))))
    else Ok(None)
  }

  /** Only the entries for the handler's named parameters. */
  function Narrow(kw: map<string, Value>, named: seq<string>): (r: map<string, Value>)
    ensures forall k :: k in r <==> k in kw && k in named
    ensures forall k :: k in r ==> r[k] == kw[k]
  {
    map k | k in kw && k in named :: kw[k]
  }

  /** The keyword dictionary before `request` is added: `match_info` alone when
      nothing was collected; otherwise the collected entries, narrowed to the
      named parameters when there is no `**kw`, overwritten by `match_info`. */
  function Keywords(b: Binding, req: Request): Result<map<string, Value>, Response>
  {
    var collected :- Collected(b, req);
    if collected.None? then Ok(Strs(req.matchInfo))
    else
      var kw := if !b.hasVarKwArg && |b.named| > 0 then Narrow(collected.value, b.named) else collected.value;
      Ok(kw + Strs(req.matchInfo))
  }

  /** A keyword argument as the handler receives it: a value, or the request. */
  datatype Arg = Val(value: Value) | Req

  function Args(kw: map<string, Value>, hasRequestArg: bool): (r: map<string, Arg>)
    ensures forall k :: k in r <==> k in kw || (hasRequestArg && k == "request")
    ensures hasRequestArg ==> r["request"] == Req
    ensures forall k :: k in kw && !(hasRequestArg && k == "request") ==> r[k] == Val(kw[k])
  {
    var vals := map k | k in kw :: Val(kw[k]);
    if hasRequestArg then vals["request" := Req] else vals
  }

  /** The first required name, in declaration order, that is not bound. */
  function FirstMissing(required: seq<string>, kw: map<string, Arg>): (r: Option<string>)
    ensures r.None? <==> forall n :: n in required ==> n in kw
    ensures r.Some? ==> exists i :: 0 <= i < |required| && required[i] == r.value && r.value !in kw
                          && forall j :: 0 <= j < i ==> required[j] in kw
  {
    if |required| == 0 then None
    else if required[0] !in kw then Some(required[0])
    else
      var r := FirstMissing(required[1..], kw);
      assert forall n :: n in required ==> n == required[0] || n in required[1..];
      if r.Some? then
        var i :| 0 <= i < |required[1..]| && required[1..][i] == r.value && r.value !in kw
                 && forall j :: 0 <= j < i ==> required[1..][j] in kw;
        assert required[i + 1] == r.value;
        assert forall j :: 1 <= j < i + 1 ==> required[j] == required[1..][j - 1];
        r
      else r
  }

  /** The keyword arguments the handler is called with, or the 400 response
      that replaces the call. */
  function Bind(b: Binding, req: Request): Result<map<string, Arg>, Response>
  {
    var kw :- Keywords(b, req);
    var args := Args(kw, b.hasRequestArg);
    var missing := FirstMissing(b.required, args);
    if missing.Some? then Err(BadRequest("Missing argument: " + missing.value)) else Ok(args)
  }

  /** `APIError(error, data, message)`; apis.py is not part of this model. */
  datatype APIError = APIError(error: Value, data: Value, message: Value)

  /** A handler: called with keyword arguments, it returns or raises `APIError`. */
  type Handler = map<string, Arg> -> Result<Reply, APIError>

  function ErrorReply(e: APIError): Value
  {
    Dict(map["error" := e.error, "data" := e.data, "message" := e.message])
  }

  /** `RequestHandler.__call__`. */
  function Call(b: Binding, req: Request, handler: Handler): Reply
  {
    match Bind(b, req)
    case Err(resp) => Stream(resp)
    case Ok(args) =>
      match handler(args)
      case Ok(reply) => reply
      case Err(e) => Value(ErrorReply(e))
  }

  // ---------------------------------------------------------------------------
  // Properties of a call

  /** Nothing is collected, and the keywords are `match_info`, when the handler
      takes no keyword parameters, the method is neither GET nor POST, or a GET
      has an empty query string. */
  lemma MatchInfoOnly(b: Binding, req: Request)
    requires !WantsKeywords(b) || (req.verb != "GET" && req.verb != "POST")
          || (req.verb == "GET" && req.queryString == "")
    ensures Keywords(b, req) == Ok(Strs(req.matchInfo))
  {
  }

  /** A POST whose body cannot be read as keywords ends in the 400 response
      with the source's message, and the handler is never called. */
  lemma PostRejected(b: Binding, req: Request, handler: Handler)
    requires WantsKeywords(b) && req.verb == "POST"
    ensures req.contentType == "" ==> Call(b, req, handler) == Stream(BadRequest("Missing Content-Type."))
    ensures req.contentType != "" && StartsWith(Lower(req.contentType), JsonType) && !req.json.Dict? ==>
              Call(b, req, handler) == Stream(BadRequest("JSON body must be object."))
    ensures req.contentType != "" && !StartsWith(Lower(req.contentType), JsonType)
            && !StartsWith(Lower(req.contentType), FormType) && !StartsWith(Lower(req.contentType), MultipartType) ==>
              Call(b, req, handler) == Stream(BadRequest("Unsupported Content-Type: " + req.contentType))
  {
  }

  /** A GET with a query string binds each name to its first value (blank
      values kept), keeps only the named parameters when the handler has
      keyword-only parameters but no `**kw`, then lets `match_info` override. */
  lemma GetQuery(b: Binding, req: Request, i: nat)
    requires WantsKeywords(b)
    requires req.verb == "GET" && req.queryString != ""
    requires i < |req.query|
    requires forall j :: 0 <= j < i ==> req.query[j].0 != req.query[i].0
    ensures Keywords(b, req).Ok?
    ensures var firsts := FirstValues(QueryValues(req.query)).Keys;
      Keywords(b, req).value.Keys ==
        (if b.hasVarKwArg || |b.named| == 0 then firsts else firsts * (set n | n in b.named)) + req.matchInfo.Keys
    ensures req.query[i].0 !in req.matchInfo && (b.hasVarKwArg || |b.named| == 0 || req.query[i].0 in b.named) ==>
      req.query[i].0 in Keywords(b, req).value && Keywords(b, req).value[req.query[i].0] == Str(req.query[i].1)
    ensures req.query[i].0 in req.matchInfo ==>
      Keywords(b, req).value[req.query[i].0] == Str(req.matchInfo[req.query[i].0])
  {
    var pairs := QueryValues(req.query);
    assert pairs[i] == (req.query[i].0, Str(req.query[i].1));
    FirstValuesSpec(pairs, i);
  }

  /** Collected keywords, without `**kw` but with named parameters, keep only
      the named ones; `match_info` entries are written over them. */
  lemma NarrowThenOverlay(b: Binding, req: Request)
    requires Collected(b, req).Ok? && Collected(b, req).value.Some?
    requires !b.hasVarKwArg && |b.named| > 0
    ensures var kw := Collected(b, req).value.value;
      && Keywords(b, req).Ok?
      && (forall k :: k in Keywords(b, req).value <==> (k in kw && k in b.named) || k in req.matchInfo)
      && (forall k :: k in req.matchInfo ==> Keywords(b, req).value[k] == Str(req.matchInfo[k]))
      && (forall k :: k in kw && k in b.named && k !in req.matchInfo ==> Keywords(b, req).value[k] == kw[k])
  {
  }

  /** A call is refused with `Missing argument: n` for the first required name
      `n` left unbound once `request` is added, and otherwise the handler gets
      exactly the bound arguments; an `APIError` it raises becomes a dictionary
      with `error`, `data` and `message`. */
  lemma CallOutcome(b: Binding, req: Request, handler: Handler)
    requires Keywords(b, req).Ok?
    ensures var args := Args(Keywords(b, req).value, b.hasRequestArg);
      var missing := FirstMissing(b.required, args);
      && (missing.Some? ==> Call(b, req, handler) == Stream(BadRequest("Missing argument: " + missing.value)))
      && (missing.None? && handler(args).Ok? ==> Call(b, req, handler) == handler(args).value)
      && (missing.None? && handler(args).Err? ==>
            && Call(b, req, handler).Value?
            && Call(b, req, handler).value.Dict?
            && Call(b, req, handler).value.entries.Keys == {"error", "data", "message"}
            && Call(b, req, handler).value.entries["error"] == handler(args).error.error
            && Call(b, req, handler).value.entries["data"] == handler(args).error.data
            && Call(b, req, handler).value.entries["message"] == handler(args).error.message)
  {
  }

  /** A handler that takes `request` is never refused for lacking it: the
      first missing required name, if any, is another one. */
  lemma RequestNeverMissing(b: Binding, req: Request)
    requires b.hasRequestArg && Keywords(b, req).Ok?
    ensures FirstMissing(b.required, Args(Keywords(b, req).value, true)) != Some("request")
    ensures Bind(b, req).Ok? ==> Bind(b, req).value["request"] == Req
  {
  }

  // ---------------------------------------------------------------------------
  // Registration

  /** One name of a handler module as `dir(mod)` lists it: whether it is
      callable, the callable itself with its signature, and the `__method__`
      and `__route__` attributes it carries (`None` when absent). */
  datatype Attribute<H> = Attribute(
    name: string,
    isCallable: bool,
    handler: H,
    params: seq<Param>,
    verbTag: Option<string>,
    route: Option<string>)

  /** The module attribute a `@get`/`@post` decoration produces. */
  function Exported<H>(name: string, w: Tagged<H>, params: seq<Param>): Attribute<H>
  {
    Attribute(name, true, w.handler, params, Some(w.verb), Some(w.route))
  }

  /** `app.router.add_route(method, path, RequestHandler(app, fn))`. */
  datatype Route<H> = Route(verb: string, path: string, handler: H, binding: Binding)

  /** The `ValueError`s of registration: no `@get`/`@post` tag, or a signature
      that `RequestHandler` refuses. */
  datatype RouteError = NotDecorated | BadSignature(cause: SignatureError)

  /** `add_route`: both tags must be present (an empty string is accepted),
      and the signature is classified when the handler is wrapped. */
  function AddRoute<H>(a: Attribute<H>): (r: Result<Route<H>, RouteError>)
    ensures r.Err? <==> a.verbTag.None? || a.route.None? || Misplaced(a.params)
    ensures r.Err? && (a.verbTag.None? || a.route.None?) ==> r.error == NotDecorated
    ensures r.Ok? ==> r.value.verb == a.verbTag.value && r.value.path == a.route.value
                      && r.value.handler == a.handler && Classify(a.params) == Ok(r.value.binding)
  {
    if a.verbTag.None? || a.route.None? then Err(NotDecorated)
    else
      match Classify(a.params)
      case Err(e) => Err(BadSignature(e))
      case Ok(binding) => Ok(Route(a.verbTag.value, a.route.value, a.handler, binding))
  }

  /** Whether `add_routes` hands an attribute to `add_route`: a public name, a
      callable, and both tags present and non-empty. */
  predicate Registered<H>(a: Attribute<H>)
  {
    && !StartsWith(a.name, "_")
    && a.isCallable
    && a.verbTag.Some? && a.verbTag.value != ""
    && a.route.Some? && a.route.value != ""
  }

  /** `add_routes` over the attributes in `dir` order; the first `ValueError`
      ends the registration. */
  function AddRoutes<H>(attrs: seq<Attribute<H>>): Result<seq<Route<H>>, RouteError>
  {
    if |attrs| == 0 then Ok([])
    else if !Registered(attrs[0]) then AddRoutes(attrs[1..])
    else
      var route :- AddRoute(attrs[0]);
      var rest :- AddRoutes(attrs[1..]);
      Ok([route] + rest)
  }

  /** A decorated handler with a well-formed signature registers under the
      decorator's method and path. */
  lemma TaggedRegisters<H>(name: string, path: string, h: H, params: seq<Param>)
    requires !Misplaced(params)
    ensures AddRoute(Exported(name, Get(path, h), params)) == Ok(Route("GET", path, h, Classify(params).value))
    ensures AddRoute(Exported(name, Post(path, h), params)) == Ok(Route("POST", path, h, Classify(params).value))
  {
  }

  /** `add_routes` fails exactly when some attribute it selects has a refused
      signature, and never for a missing tag; otherwise it registers every
      selected attribute and nothing else. */
  lemma {:induction false} AddRoutesSpec<H>(attrs: seq<Attribute<H>>)
    ensures AddRoutes(attrs).Err? <==> exists i :: 0 <= i < |attrs| && Registered(attrs[i]) && Misplaced(attrs[i].params)
    ensures AddRoutes(attrs).Err? ==> AddRoutes(attrs).error.BadSignature?
    ensures AddRoutes(attrs).Ok? ==> |AddRoutes(attrs).value| <= |attrs|
    ensures AddRoutes(attrs).Ok? ==>
      forall i :: 0 <= i < |attrs| && Registered(attrs[i]) ==> AddRoute(attrs[i]).value in AddRoutes(attrs).value
    ensures AddRoutes(attrs).Ok? ==>
      forall r :: r in AddRoutes(attrs).value ==>
        exists i :: 0 <= i < |attrs| && Registered(attrs[i]) && AddRoute(attrs[i]) == Ok(r)
  {
    if |attrs| > 0 {
      var rest := attrs[1..];
      AddRoutesSpec(rest);
      assert forall i :: 1 <= i < |attrs| ==> attrs[i] == rest[i - 1];
      if AddRoutes(attrs).Ok? {
        forall r | r in AddRoutes(attrs).value
          ensures exists i :: 0 <= i < |attrs| && Registered(attrs[i]) && AddRoute(attrs[i]) == Ok(r)
        {
          if r !in AddRoutes(rest).value {
            assert AddRoute(attrs[0]) == Ok(r);
          } else {
            var i :| 0 <= i < |rest| && Registered(rest[i]) && AddRoute(rest[i]) == Ok(r);
            assert attrs[i + 1] == rest[i];
          }
        }
      }
      if exists i :: 0 <= i < |attrs| && Registered(attrs[i]) && Misplaced(attrs[i].params) {
        var i :| 0 <= i < |attrs| && Registered(attrs[i]) && Misplaced(attrs[i].params);
        if i > 0 {
          assert rest[i - 1] == attrs[i];
        }
      }
    }
  }

  /** The attributes `add_routes` selects, in `dir` order. */
  function Selected<H>(attrs: seq<Attribute<H>>): (sel: seq<Attribute<H>>)
    ensures Subsequence(sel, attrs)
    ensures forall j :: 0 <= j < |sel| ==> Registered(sel[j])
    ensures forall i :: 0 <= i < |attrs| && Registered(attrs[i]) ==> attrs[i] in sel
  {
    if |attrs| == 0 then []
    else
      var rest := Selected(attrs[1..]);
      assert [attrs[0]] + attrs[1..] == attrs;
      assert forall i :: 1 <= i < |attrs| ==> attrs[i] == attrs[1..][i - 1];
      if Registered(attrs[0]) then
        assert ([attrs[0]] + rest)[1..] == rest;
        [attrs[0]] + rest
      else
        SubsequenceCons(rest, attrs[1..], attrs[0]);
        rest
  }

  /** A successful `add_routes` registers the selected attributes one by one,
      in the order `dir` lists them. */
  lemma {:induction false} AddRoutesInOrder<H>(attrs: seq<Attribute<H>>)
    requires AddRoutes(attrs).Ok?
    ensures |AddRoutes(attrs).value| == |Selected(attrs)|
    ensures forall j :: 0 <= j < |Selected(attrs)| ==> AddRoute(Selected(attrs)[j]) == Ok(AddRoutes(attrs).value[j])
  {
    if |attrs| > 0 {
      AddRoutesInOrder(attrs[1..]);
    }
  }
}
