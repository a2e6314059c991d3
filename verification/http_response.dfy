/**
 * Service registration and dispatch: routes derived from service names,
 * route-configuration merging, the standard response dictionary, and the
 * cascade that turns a route and a payload into a response.
 */
module HttpResponse {
  import opened Wrappers
  import opened Json
  import opened Text

  datatype ResponseStatus = StatusSuccess | StatusError | StatusValidationError

  /** The enumeration member's name. */
  function EnumName(s: ResponseStatus): string {
    match s
    case StatusSuccess => "SUCCESS"
    case StatusError => "ERROR"
    case StatusValidationError => "VALIDATION_ERROR"
  }

  /** Python's `str.lower` over a whole ASCII string. */
  function LowerAll(s: string): (r: string)
    ensures |r| == |s|
  {
    seq(|s|, i requires 0 <= i < |s| => Lower(s[i]))
  }

  /** `status.name.lower()`. */
  function StatusText(s: ResponseStatus): string {
    LowerAll(EnumName(s))
  }

  /** The text of the success status. */
  lemma SuccessStatusText()
    ensures StatusText(StatusSuccess) == "success"
  {
  }

  /** The text of the error status. */
  lemma ErrorStatusText()
    ensures StatusText(StatusError) == "error"
  {
  }

  /** The text of the validation-error status. */
  lemma ValidationStatusText()
    ensures StatusText(StatusValidationError) == "validation_error"
  {
  }

  /** A route's configuration. */
  datatype RouteConfig = RouteConfig(serviceName: string, routePath: string, httpMethod: string, description: Option<string>)

  /** A registered callable: its `__name__` and an opaque handle on its implementation. */
  datatype Service = Service(name: string, implementation: nat)

  datatype Registry = Registry(routes: map<string, RouteConfig>, services: map<string, Service>)

  /** Each character lower-cased, and each upper-case one after the first position prefixed by `-`. */
  function KebabFrom(s: string, atStart: bool): (r: string)
    ensures forall i :: 0 <= i < |r| ==> !IsUpper(r[i])
    ensures |r| >= |s|
  {
    if |s| == 0 then ""
    else (if IsUpper(s[0]) && !atStart then ['-', Lower(s[0])] else [Lower(s[0])]) + KebabFrom(s[1..], false)
  }

  /** The route a service name is registered under: `Service` removed, then kebab-cased, behind a `/`. */
  function RoutePath(name: string): (r: string)
    ensures |r| > 0 && r[0] == '/'
    ensures forall i :: 0 <= i < |r| ==> !IsUpper(r[i])
    ensures |r| > 1 ==> r[1] != '-'
  {
    "/" + LStrip(KebabFrom(RemoveAll(name, "Service"), true), '-')
  }

  /** Reading a kebab-case text back: a `-` upper-cases the next character and disappears. */
  function CamelFromKebab(k: string): string {
    if |k| == 0 then ""
    else if k[0] == '-' && |k| >= 2 then [Upper(k[1])] + CamelFromKebab(k[2..])
    else [k[0]] + CamelFromKebab(k[1..])
  }

  /** The service-name stem a route reads back to: its first letter and every letter after a `-` upper-cased. */
  function StemFromRoute(route: string): string {
    if |route| < 2 then "" else [Upper(route[1])] + CamelFromKebab(route[2..])
  }

  /** A CamelCase stem that starts with an upper-case letter and has no `-`. */
  predicate PascalStem(s: string) {
    |s| > 0 && IsUpper(s[0]) && '-' !in s
  }

  /** Kebab-casing loses nothing on a text without `-`. */
  lemma {:induction false} KebabRoundTrip(s: string)
    requires '-' !in s
    ensures CamelFromKebab(KebabFrom(s, false)) == s
  {
    if |s| > 0 {
      KebabRoundTrip(s[1..]);
      var rest := KebabFrom(s[1..], false);
      if IsUpper(s[0]) {
        var k := ['-', Lower(s[0])] + rest;
        assert k[2..] == rest;
        UpperLower(s[0]);
      } else {
        var k := [s[0]] + rest;
        assert k[1..] == rest;
      }
      assert s == [s[0]] + s[1..];
    }
  }

  /** The route of a name whose `Service`-free stem is Pascal-case reads back to that stem. */
  lemma RouteRoundTrip(name: string)
    requires PascalStem(RemoveAll(name, "Service"))
    ensures StemFromRoute(RoutePath(name)) == RemoveAll(name, "Service")
  {
    var stem := RemoveAll(name, "Service");
    var k := KebabFrom(stem, true);
    assert k == [Lower(stem[0])] + KebabFrom(stem[1..], false);
    assert LStrip(k, '-') == k;
    var r := RoutePath(name);
    assert r[2..] == KebabFrom(stem[1..], false);
    assert '-' !in stem[1..];
    KebabRoundTrip(stem[1..]);
    UpperLower(stem[0]);
    assert stem == [stem[0]] + stem[1..];
  }

  /** Services with different Pascal-case stems get different routes. */
  lemma RouteInjective(a: string, b: string)
    requires PascalStem(RemoveAll(a, "Service")) && PascalStem(RemoveAll(b, "Service"))
    requires RoutePath(a) == RoutePath(b)
    ensures RemoveAll(a, "Service") == RemoveAll(b, "Service")
  {
    RouteRoundTrip(a);
    RouteRoundTrip(b);
  }

  /** No upper-case character anywhere in `s`. */
  predicate NoUpper(s: string) {
    forall i :: 0 <= i < |s| ==> !IsUpper(s[i])
  }

  /** A run without upper-case characters is kebab-cased to itself. */
  lemma {:induction false} KebabLowerRun(s: string, atStart: bool)
    requires NoUpper(s)
    ensures KebabFrom(s, atStart) == s
  {
    if |s| > 0 {
      KebabLowerRun(s[1..], false);
      assert s == [s[0]] + s[1..];
    }
  }

  /** Kebab-casing works piecewise: only the very first character counts as the start. */
  lemma {:induction false} KebabAppend(a: string, b: string, atStart: bool)
    ensures KebabFrom(a + b, atStart) == KebabFrom(a, atStart) + KebabFrom(b, atStart && |a| == 0)
  {
    if |a| > 0 {
      var head := if IsUpper(a[0]) && !atStart then ['-', Lower(a[0])] else [Lower(a[0])];
      assert (a + b)[0] == a[0];
      assert (a + b)[1..] == a[1..] + b;
      assert KebabFrom(a + b, atStart) == head + KebabFrom(a[1..] + b, false);
      KebabAppend(a[1..], b, false);
      assert KebabFrom(a, atStart) == head + KebabFrom(a[1..], false);
    } else {
      assert a + b == b;
    }
  }

  /** `Service` begins with the only `S` it contains, so no proper prefix of it is also a suffix. */
  lemma ServiceBorderFree()
    ensures "Service"[0] !in "Service"[1..]
  {
    assert "Service"[1..] == "ervice";
  }

  /**
   * Whatever the name, appending `Service` leaves the route unchanged: the appended copy is
   * removed whole, so a name and the same name with `Service` appended share one route and the
   * later registration takes it over.
   */
  lemma ServiceSuffixCollides(name: string)
    ensures RoutePath(name + "Service") == RoutePath(name)
  {
    ServiceBorderFree();
    RemoveAllAppendPattern(name, "Service");
  }

  /** A leading `Service` word is removed as well, so `ServiceDesk` is routed like `Desk`. */
  lemma ServiceWordDropped(rest: string)
    ensures RoutePath("Service" + rest) == RoutePath(rest)
  {
    RemoveAllLeading("Service", rest);
  }

  /** A stem in which `Service` does not occur, followed by `Service`, loses exactly that suffix. */
  lemma StemOf(stem: string)
    requires Free(stem, "Service")
    ensures RemoveAll(stem + "Service", "Service") == stem
    ensures RemoveAll(stem, "Service") == stem
  {
    RemoveAllFree(stem, "Service");
    ServiceBorderFree();
    RemoveAllAppendPattern(stem, "Service");
  }

  /** One capitalised word: an upper-case letter followed by no upper-case letter. */
  predicate PascalWord(w: string) {
    |w| > 0 && IsUpper(w[0]) && NoUpper(w[1..])
  }

  /** A capitalised word kebab-cases to its lower-case form, behind a `-` unless it starts the name. */
  lemma PascalWordKebab(w: string, atStart: bool)
    requires PascalWord(w)
    ensures KebabFrom(w, atStart) == (if atStart then "" else "-") + LowerAll(w)
  {
    KebabLowerRun(w[1..], false);
    assert LowerAll(w) == [Lower(w[0])] + w[1..];
  }

  /** A stem free of `Service` is routed, with or without the `Service` suffix, to its kebab form behind `/`. */
  lemma StemRoute(stem: string)
    requires Free(stem, "Service")
    requires var k := KebabFrom(stem, true); |k| > 0 && k[0] != '-'
    ensures RoutePath(stem + "Service") == "/" + KebabFrom(stem, true)
    ensures RoutePath(stem) == "/" + KebabFrom(stem, true)
  {
    StemOf(stem);
  }

  /** Two capitalised words, neither starting with `S`, cannot contain `Service`. */
  lemma WordsWithoutS(w1: string, w2: string)
    requires PascalWord(w1) && PascalWord(w2) && w1[0] != 'S' && w2[0] != 'S'
    ensures Free(w1 + w2, "Service")
  {
    assert w1 == [w1[0]] + w1[1..];
    assert w2 == [w2[0]] + w2[1..];
    assert 'S' !in w1 + w2;
    FreeWithoutHead(w1 + w2, "Service");
  }

  /** Two capitalised words kebab-case to their lower-case forms joined by `-`. */
  lemma TwoWordKebab(w1: string, w2: string)
    requires PascalWord(w1) && PascalWord(w2)
    ensures KebabFrom(w1 + w2, true) == LowerAll(w1) + "-" + LowerAll(w2)
  {
    KebabAppend(w1, w2, true);
    PascalWordKebab(w1, true);
    PascalWordKebab(w2, false);
  }

  /**
   * A two-word Pascal-case name in which `Service` does not occur, with or without the `Service`
   * suffix, is routed to its two words in lower case joined by `-`.
   */
  lemma TwoWordRoute(w1: string, w2: string)
    requires PascalWord(w1) && PascalWord(w2) && Free(w1 + w2, "Service")
    ensures var route := "/" + LowerAll(w1) + "-" + LowerAll(w2);
      && RoutePath(w1 + w2 + "Service") == route
      && RoutePath(w1 + w2) == route
  {
    TwoWordKebab(w1, w2);
    StemRoute(w1 + w2);
  }

  // The example lemmas below take their words as parameters pinned by `requires` rather than
  // writing the literals into the goal: a literal in the goal lets the verifier unfold the
  // recursive definitions character by character, which the parameters keep it from doing.

  /** The words of the first documented example, and their kebab-cased join. */
  lemma CreateUserWords(first: string, second: string)
    requires first == "Create" && second == "User"
    ensures PascalWord(first) && PascalWord(second) && first[0] != 'S' && second[0] != 'S'
    ensures "/" + LowerAll(first) + "-" + LowerAll(second) == "/create-user"
  {
    assert LowerAll("Create") == "create";
    assert LowerAll("User") == "user";
  }

  /** The documented example of the naming rule: `CreateUserService` is served at `/create-user`. */
  lemma CreateUserRoute(first: string, second: string)
    requires first == "Create" && second == "User"
    ensures RoutePath(first + second + "Service") == "/create-user"
  {
    CreateUserWords(first, second);
    WordsWithoutS(first, second);
    TwoWordRoute(first, second);
  }

  /** The words of the second documented example, and their kebab-cased join. */
  lemma UpdateProductWords(first: string, second: string)
    requires first == "Update" && second == "Product"
    ensures PascalWord(first) && PascalWord(second) && first[0] != 'S' && second[0] != 'S'
    ensures "/" + LowerAll(first) + "-" + LowerAll(second) == "/update-product"
  {
    assert LowerAll("Update") == "update";
    assert LowerAll("Product") == "product";
  }

  /** The second documented example: `UpdateProductService` is served at `/update-product`. */
  lemma UpdateProductRoute(first: string, second: string)
    requires first == "Update" && second == "Product"
    ensures RoutePath(first + second + "Service") == "/update-product"
  {
    UpdateProductWords(first, second);
    WordsWithoutS(first, second);
    TwoWordRoute(first, second);
  }

  /** A name starting with the word `Service` loses it: `ServiceDesk` is served at `/desk`, not `/service-desk`. */
  lemma ServiceDeskRoute(first: string, second: string)
    requires first == "Service" && second == "Desk"
    ensures RoutePath(first + second) == "/desk"
  {
    ServiceWordDropped(second);
    assert PascalWord(second) && second[0] != 'S';
    assert 'S' !in second by {
      assert second == [second[0]] + second[1..];
    }
    FreeWithoutHead(second, "Service");
    PascalWordKebab(second, true);
    assert LowerAll(second) == "desk";
    StemRoute(second);
  }

  /** The registration step of `register_service` once the route is known: route and service are entered, nothing else moves. */
  function RegisterAt(reg: Registry, path: string, svc: Service): (r: Registry)
    ensures path in r.routes && r.routes[path] == RouteConfig(svc.name, path, "POST", None)
    ensures svc.name in r.services && r.services[svc.name] == svc
    ensures forall p :: p != path ==> (p in r.routes <==> p in reg.routes)
    ensures forall p :: p in reg.routes && p != path ==> r.routes[p] == reg.routes[p]
    ensures forall n :: n != svc.name ==> (n in r.services <==> n in reg.services)
    ensures forall n :: n in reg.services && n != svc.name ==> r.services[n] == reg.services[n]
  {
    Registry(reg.routes[path := RouteConfig(svc.name, path, "POST", None)], reg.services[svc.name := svc])
  }

  /** `register_service(service)`: the service is entered under the route derived from its name. */
  function RegisterService(reg: Registry, svc: Service): (r: Registry)
    ensures var path := RoutePath(svc.name);
      && path in r.routes && r.routes[path] == RouteConfig(svc.name, path, "POST", None)
      && r.routes.Keys == reg.routes.Keys + {path}
      && (forall p :: p in reg.routes && p != path ==> r.routes[p] == reg.routes[p])
    ensures svc.name in r.services && r.services[svc.name] == svc
    ensures r.services.Keys == reg.services.Keys + {svc.name}
    ensures forall n :: n in reg.services && n != svc.name ==> r.services[n] == reg.services[n]
  {
    RegisterAt(reg, RoutePath(svc.name), svc)
  }

  /** Entering the same service under the same route twice changes nothing the second time. */
  lemma RegisterAtIdempotent(reg: Registry, path: string, svc: Service)
    ensures RegisterAt(RegisterAt(reg, path, svc), path, svc) == RegisterAt(reg, path, svc)
  {
    var once := RegisterAt(reg, path, svc);
    var twice := RegisterAt(once, path, svc);
    assert twice.routes.Keys == once.routes.Keys;
    assert forall p :: p in once.routes ==> twice.routes[p] == once.routes[p];
    assert twice.services.Keys == once.services.Keys;
    assert forall n :: n in once.services ==> twice.services[n] == once.services[n];
  }

  /** Registering a service a second time leaves both maps as they were. */
  lemma RegisterIdempotent(reg: Registry, svc: Service)
    ensures RegisterService(RegisterService(reg, svc), svc) == RegisterService(reg, svc)
  {
    RegisterAtIdempotent(reg, RoutePath(svc.name), svc);
  }

  /** `load_route_config`: each configuration in turn is stored under its route path; later ones overwrite earlier ones. */
  function LoadRouteConfig(reg: Registry, configs: seq<RouteConfig>): (r: Registry)
    decreases |configs|
    ensures r.services == reg.services
    ensures reg.routes.Keys <= r.routes.Keys
  {
    if |configs| == 0 then reg
    else
      var c := configs[0];
      LoadRouteConfig(Registry(reg.routes[c.routePath := c], reg.services), configs[1..])
  }

  /** The last configuration loaded for a route path is the one stored under it. */
  lemma {:induction false} LoadRouteConfigLastWins(reg: Registry, configs: seq<RouteConfig>, i: int)
    requires 0 <= i < |configs| && LastFor(configs, i)
    decreases |configs|
    ensures var r := LoadRouteConfig(reg, configs);
      configs[i].routePath in r.routes && r.routes[configs[i].routePath] == configs[i]
  {
    var c := configs[0];
    var next := Registry(reg.routes[c.routePath := c], reg.services);
    if i == 0 {
      LoadRouteConfigKeepsOthers(next, configs[1..], c.routePath);
    } else {
      assert configs[1..][i - 1] == configs[i];
      assert LastFor(configs[1..], i - 1);
      LoadRouteConfigLastWins(next, configs[1..], i - 1);
    }
  }

  /** A route path that no loaded configuration names keeps its previous entry, or its absence. */
  lemma {:induction false} LoadRouteConfigKeepsOthers(reg: Registry, configs: seq<RouteConfig>, p: string)
    requires forall i :: 0 <= i < |configs| ==> configs[i].routePath != p
    decreases |configs|
    ensures var r := LoadRouteConfig(reg, configs);
      (p in r.routes <==> p in reg.routes) && (p in reg.routes ==> r.routes[p] == reg.routes[p])
  {
    if |configs| > 0 {
      var c := configs[0];
      assert c.routePath != p;
      assert forall i :: 0 <= i < |configs[1..]| ==> configs[1..][i] == configs[i + 1];
      LoadRouteConfigKeepsOthers(Registry(reg.routes[c.routePath := c], reg.services), configs[1..], p);
    }
  }

  /** No later configuration has the same route path as the `i`-th. */
  predicate LastFor(configs: seq<RouteConfig>, i: int)
    requires 0 <= i < |configs|
  {
    forall j :: i < j < |configs| ==> configs[j].routePath != configs[i].routePath
  }

  /** The arguments of one `create_response` call. */
  datatype ResponseArgs = ResponseArgs(status: ResponseStatus, data: Json, message: Option<string>, errors: Option<Document>)

  /**
   * `create_response(...)` with `datetime` imported: `now` is the ISO text of the current time.
   * `data` appears when not `None`, `message` and `errors` when non-empty.
   */
  function CreateResponse(a: ResponseArgs, now: string): (r: Document)
    ensures r.Keys <= {"status", "timestamp", "data", "message", "errors"}
    ensures "status" in r && r["status"] == JString(StatusText(a.status))
    ensures "timestamp" in r && r["timestamp"] == JString(now)
    ensures "data" in r <==> a.data != JNull
    ensures "data" in r ==> r["data"] == a.data
    ensures "message" in r <==> a.message.Some? && a.message.value != ""
    ensures "message" in r ==> r["message"] == JString(a.message.value)
    ensures "errors" in r <==> a.errors.Some? && |a.errors.value| > 0
    ensures "errors" in r ==> r["errors"] == JObject(a.errors.value)
  {
    var base := map["status" := JString(StatusText(a.status)), "timestamp" := JString(now)];
    var withData := if a.data != JNull then base["data" := a.data] else base;
    var withMessage := if a.message.Some? && a.message.value != "" then withData["message" := JString(a.message.value)] else withData;
    if a.errors.Some? && |a.errors.value| > 0 then withMessage["errors" := JObject(a.errors.value)] else withMessage
  }

  /** What the catch-all handler responds with. */
  function InternalError(exception: string): ResponseArgs {
    ResponseArgs(StatusError, JNull, Some("Internal service error"), Some(map["exception" := JString(exception)]))
  }

  /** How a call binds: `None` when the payload fits the service's signature, else the `TypeError` text. */
  type Binder = (Service, Document) -> Option<string>

  /** Calling the service: its result, or the text of the exception it raised. */
  type Invoker = (Service, Document) -> Result<Json, string>

  /** The response `execute_service(route_path, request_data)` decides on, before it is built. */
  function Dispatch(reg: Registry, path: string, data: Document, bind: Binder, invoke: Invoker): (r: ResponseArgs)
    ensures path !in reg.routes ==> r.status == StatusError && r.errors == Some(map["route" := JString("Not found")])
    ensures path in reg.routes && reg.routes[path].serviceName !in reg.services ==>
      r.status == StatusError && r.errors == Some(map["service" := JString("Not implemented")])
    ensures r.status == StatusValidationError <==>
      (path in reg.routes && reg.routes[path].serviceName in reg.services
       && bind(reg.services[reg.routes[path].serviceName], data).Some?)
    ensures r.status == StatusSuccess <==>
      (path in reg.routes && reg.routes[path].serviceName in reg.services
       && var svc := reg.services[reg.routes[path].serviceName];
          bind(svc, data).None? && invoke(svc, data).Success?)
    ensures r.status == StatusSuccess ==> r.data == invoke(reg.services[reg.routes[path].serviceName], data).value
    ensures r.status != StatusSuccess ==> r.data == JNull && r.errors.Some? && |r.errors.value| > 0
  {
    if path !in reg.routes then
      ResponseArgs(StatusError, JNull, Some("No service found for route: " + path), Some(map["route" := JString("Not found")]))
    else
      var route := reg.routes[path];
      if route.serviceName !in reg.services then
        ResponseArgs(StatusError, JNull, Some("Service implementation not found: " + route.serviceName),
                     Some(map["service" := JString("Not implemented")]))
      else
        var svc := reg.services[route.serviceName];
        match bind(svc, data)
        case Some(typeError) =>
          ResponseArgs(StatusValidationError, JNull, Some("Input validation failed"), Some(map["validation" := JString(typeError)]))
        case None =>
          match invoke(svc, data)
          case Failure(exception) => InternalError(exception)
          case Success(result) => ResponseArgs(StatusSuccess, result, Some("Successfully executed " + route.serviceName), None)
  }

  /** `execute_service(route_path, request_data)`, with `create_response` building the response at time `now`. */
  function ExecuteService(reg: Registry, path: string, data: Document, bind: Binder, invoke: Invoker, now: string): (r: Document)
    ensures "status" in r && "timestamp" in r && r["timestamp"] == JString(now)
    ensures path !in reg.routes ==>
      && r["status"] == JString(StatusText(StatusError))
      && "data" !in r
      && "errors" in r && r["errors"] == JObject(map["route" := JString("Not found")])
    ensures "data" in r ==> r["status"] == JString(StatusText(StatusSuccess))
    ensures path in reg.routes && reg.routes[path].serviceName in reg.services ==>
      var svc := reg.services[reg.routes[path].serviceName];
      && (bind(svc, data).Some? ==> r["status"] == JString(StatusText(StatusValidationError)) && "data" !in r)
      && (bind(svc, data).None? && invoke(svc, data).Success? ==>
            r["status"] == JString(StatusText(StatusSuccess))
            && ("data" in r <==> invoke(svc, data).value != JNull)
            && ("data" in r ==> r["data"] == invoke(svc, data).value))
  {
    CreateResponse(Dispatch(reg, path, data, bind, invoke), now)
  }

  /** An unknown route is answered with an error response naming the route as not found, and no data. */
  lemma UnknownRouteResponse(reg: Registry, path: string, data: Document, bind: Binder, invoke: Invoker, now: string)
    requires path !in reg.routes
    ensures var r := ExecuteService(reg, path, data, bind, invoke, now);
      && r["status"] == JString(StatusText(StatusError))
      && "data" !in r
      && r["message"] == JString("No service found for route: " + path)
      && r["errors"] == JObject(map["route" := JString("Not found")])
  {
  }

  /** A service just registered is found under its route: its response depends only on binding and on the call. */
  lemma RegisteredServiceDispatches(reg: Registry, svc: Service, data: Document, bind: Binder, invoke: Invoker)
    ensures var r := Dispatch(RegisterService(reg, svc), RoutePath(svc.name), data, bind, invoke);
      && (bind(svc, data).Some? ==> r.status == StatusValidationError)
      && (bind(svc, data).None? && invoke(svc, data).Failure? ==> r == InternalError(invoke(svc, data).error))
      && (bind(svc, data).None? && invoke(svc, data).Success? ==> r.status == StatusSuccess && r.data == invoke(svc, data).value)
  {
  }

  // ---------------------------------------------------------------------
  // As written, `create_response` reads `datetime`, which the module never imports

  /** The `NameError` text every `create_response` call raises. */
  const DatetimeNameError: string := "name 'datetime' is not defined"

  /** `create_response(...)` as written: the `timestamp` entry evaluates `datetime.now()`, an undefined name. */
  function CreateResponseAsWritten(a: ResponseArgs): Result<Document, string> {
    Failure(DatetimeNameError)
  }

  /**
   * `execute_service` as written: whichever response the cascade picks, building it raises inside
   * the `try`; the handler then builds the internal-error response, which raises again, out of the call.
   */
  function ExecuteServiceAsWritten(reg: Registry, path: string, data: Document, bind: Binder, invoke: Invoker)
    : Result<Document, string>
  {
    match CreateResponseAsWritten(Dispatch(reg, path, data, bind, invoke))
    case Success(response) => Success(response)
    case Failure(e) => CreateResponseAsWritten(InternalError(e))
  }

  /** As written, no call of `execute_service` returns a response: every one raises the `NameError`. */
  lemma ExecuteServiceAsWrittenAlwaysRaises(reg: Registry, path: string, data: Document, bind: Binder, invoke: Invoker)
    ensures ExecuteServiceAsWritten(reg, path, data, bind, invoke) == Failure(DatetimeNameError)
  {
  }
}
