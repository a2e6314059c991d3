/**
 * The example HTTP request handler: path segmentation into a service and an
 * action, the fixed routing table of `handle_logic`, and the success/failure
 * envelope the handler answers with.
 */
module RestHandler {
  import opened Wrappers
  import opened Json
  import opened Text

  /** The request methods the handler serves (`do_GET`, `do_POST`, `do_PUT`, `do_DELETE`). */
  datatype Verb = GetVerb | PostVerb | PutVerb | DeleteVerb

  /** The method name `handle_request` is called with. */
  function VerbText(v: Verb): string {
    match v
    case GetVerb => "GET"
    case PostVerb => "POST"
    case PutVerb => "PUT"
    case DeleteVerb => "DELETE"
  }

  /** The service segment and, when there is one, the action segment of a request path. */
  datatype Route = Route(service: string, action: Option<string>)

  /** `path.strip('/').split('/')`. */
  function Segments(path: string): (r: seq<string>)
    ensures |r| > 0
    ensures forall i :: 0 <= i < |r| ==> '/' !in r[i]
  {
    Split(Strip(path, '/'), '/')
  }

  /** The route of a path: the second segment names the service, the third (if any) the action; later segments are ignored. */
  function ParseRoute(path: string): (r: Option<Route>)
    ensures r.None? <==> |Segments(path)| < 2
    ensures r.Some? ==> r.value.service == Segments(path)[1] && '/' !in r.value.service
    ensures r.Some? ==> (r.value.action.Some? <==> |Segments(path)| > 2)
    ensures r.Some? && r.value.action.Some? ==> r.value.action.value == Segments(path)[2]
  {
    var parts := Segments(path);
    if |parts| >= 2 then Some(Route(parts[1], if |parts| > 2 then Some(parts[2]) else None))
    else None
  }

  /** A path whose stripped form holds no `/` has a single segment and is rejected. */
  lemma SingleSegmentRejected(path: string)
    requires '/' !in Strip(path, '/')
    ensures ParseRoute(path) == None
  {
    SplitFree(Strip(path, '/'), '/');
  }

  /** Segments written out behind a `/` are read back as the route: the second is the service, the third the action. */
  lemma RouteRoundTrip(segs: seq<string>)
    requires PathSegments(segs)
    ensures ParseRoute("/" + Join(segs, "/")) == Some(Route(segs[1], if |segs| > 2 then Some(segs[2]) else None))
  {
    var j := Join(segs, "/");
    JoinFramed(segs);
    StripFramed(j, '/');
    assert "/" + j == ['/'] + j;
    SplitJoin(segs, '/');
  }

  /** The written-out path neither starts nor ends with `/`. */
  lemma JoinFramed(segs: seq<string>)
    requires PathSegments(segs)
    ensures var j := Join(segs, "/"); |j| > 0 && j[0] != '/' && j[|j| - 1] != '/'
  {
    var j := Join(segs, "/");
    JoinStartsWith(segs, "/");
    JoinEndsWith(segs, "/");
    assert j[0] == j[..|segs[0]|][0] == segs[0][0];
    var last := segs[|segs| - 1];
    assert j[|j| - 1] == j[|j| - |last|..][|last| - 1] == last[|last| - 1];
  }

  /** What `handle_logic` returns, or the message of the exception it raises. */
  function HandleLogic(service: string, action: Option<string>, verb: Verb, data: Json): (r: Result<Json, string>)
    ensures r.Success? <==>
      service == "user" && ((action == Some("create") && verb == PostVerb) || (action == Some("get") && verb == GetVerb))
    ensures r.Success? ==> r.value.JObject? && Get(r.value.fields, "data") == data
    ensures r.Success? ==> r.value == JObject(map[
      "message" := JString(if action == Some("create") then "User created" else "User data retrieved"),
      "data" := data])
    ensures r.Failure? && service == "user" ==> r.error == "Unsupported action or method"
    ensures service != "user" ==> r == Failure("Unsupported service")
  {
    if service == "user" then
      if action == Some("create") && VerbText(verb) == "POST" then
        Success(JObject(map["message" := JString("User created"), "data" := data]))
      else if action == Some("get") && VerbText(verb) == "GET" then
        Success(JObject(map["message" := JString("User data retrieved"), "data" := data]))
      else
        Failure("Unsupported action or method")
    else
      Failure("Unsupported service")
  }

  /** The body written back: raw bytes for a rejected path, a JSON envelope otherwise. */
  datatype Body = RawText(text: string) | Envelope(doc: Document)

  datatype Reply = Reply(status: int, body: Body)

  /** `handle_request(method)` on a path and the request data already decoded from the body or the query. */
  function HandleRequest(verb: Verb, path: string, data: Json): (r: Reply)
    ensures r.status == 400 <==> ParseRoute(path).None?
    ensures r.status == 400 ==> r.body == RawText("Invalid path")
    ensures r.status in {200, 400, 500}
    ensures r.status != 400 ==>
      (r.body.Envelope? && "success" in r.body.doc && (r.status == 200 <==> r.body.doc["success"] == JBool(true)))
    ensures ParseRoute(path).Some? ==>
      var route := ParseRoute(path).value;
      var outcome := HandleLogic(route.service, route.action, verb, data);
      && (outcome.Success? ==> r == Reply(200, Envelope(map["success" := JBool(true), "data" := outcome.value])))
      && (outcome.Failure? ==> r == Reply(500, Envelope(map["success" := JBool(false), "message" := JString(outcome.error)])))
  {
    match ParseRoute(path)
    case None => Reply(400, RawText("Invalid path"))
    case Some(route) =>
      match HandleLogic(route.service, route.action, verb, data)
      case Success(result) => Reply(200, Envelope(map["success" := JBool(true), "data" := result]))
      case Failure(message) => Reply(500, Envelope(map["success" := JBool(false), "message" := JString(message)]))
  }

  /** Segments that can be written into a path and read back unchanged. */
  predicate PathSegments(segs: seq<string>) {
    |segs| >= 2 && segs[0] != "" && segs[|segs| - 1] != ""
    && forall i :: 0 <= i < |segs| ==> '/' !in segs[i]
  }

  /** A POST whose second and third segments are `user` and `create` succeeds, whatever follows, and echoes the data. */
  lemma CreateUserRequest(segs: seq<string>, data: Json)
    requires PathSegments(segs) && |segs| >= 3 && segs[1] == "user" && segs[2] == "create"
    ensures var r := HandleRequest(PostVerb, "/" + Join(segs, "/"), data);
      r.status == 200 && r.body.doc["data"] == JObject(map["message" := JString("User created"), "data" := data])
  {
    RouteRoundTrip(segs);
  }

  /** A path with the user service but no action is rejected by `handle_logic`, whatever the method. */
  lemma UserWithoutActionFails(segs: seq<string>, verb: Verb, data: Json)
    requires PathSegments(segs) && |segs| == 2 && segs[1] == "user"
    ensures var r := HandleRequest(verb, "/" + Join(segs, "/"), data);
      r.status == 500 && r.body.doc["message"] == JString("Unsupported action or method")
  {
    RouteRoundTrip(segs);
  }

  /** `handle_logic` answers a GET for `user`/`get` with the retrieval message and the data. */
  lemma GetUserLogic(service: string, action: Option<string>, data: Json)
    requires service == "user" && action == Some("get")
    ensures HandleLogic(service, action, GetVerb, data)
      == Success(JObject(map["message" := JString("User data retrieved"), "data" := data]))
  {
  }

  /** A GET whose second and third segments are `user` and `get` succeeds and reports the data as retrieved. */
  lemma GetUserRequest(segs: seq<string>, data: Json)
    requires PathSegments(segs) && |segs| >= 3 && segs[1] == "user" && segs[2] == "get"
    ensures var r := HandleRequest(GetVerb, "/" + Join(segs, "/"), data);
      r.status == 200 && r.body.doc["data"] == JObject(map["message" := JString("User data retrieved"), "data" := data])
  {
    RouteRoundTrip(segs);
    GetUserLogic(segs[1], Some(segs[2]), data);
  }

  /** Any well-formed path naming a service other than `user` gets a 500 envelope saying the service is unsupported. */
  lemma UnknownServiceFails(segs: seq<string>, verb: Verb, data: Json)
    requires PathSegments(segs) && segs[1] != "user"
    ensures var r := HandleRequest(verb, "/" + Join(segs, "/"), data);
      r == Reply(500, Envelope(map["success" := JBool(false), "message" := JString("Unsupported service")]))
  {
    RouteRoundTrip(segs);
  }
}
