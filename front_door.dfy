/**
 * The request handler given to `http.createServer`: the method and the
 * resolved pathname choose a route, and the route's handler answers.
 */
module FrontDoor {
  import opened Wrappers
  import opened JsValues
  import opened UserStore
  import opened Http
  import opened CredentialService
  import Hex
  import RequestBody

  /** A request as the dispatcher sees it: the verb, the pathname and the body's text chunks. */
  datatype Request = Request(verb: string, pathname: string, chunks: seq<string>)

  datatype Route = Preflight | LoginRoute | ChangePasswordRoute | NotFound

  const ApiPrefix: string := "/api/"
  const LoginPath: string := "/api/login"
  const ChangePasswordPath: string := "/api/change-password"
  const NotFoundMessage: string := "Endpoint not found"

  /** The checks of the dispatcher, in their order. */
  function RouteOf(verb: string, pathname: string): (r: Route)
    ensures r == Preflight <==> verb == "OPTIONS" && ApiPrefix <= pathname
    ensures r == LoginRoute <==> verb == "POST" && pathname == LoginPath
    ensures r == ChangePasswordRoute <==> verb == "POST" && pathname == ChangePasswordPath
    ensures r == NotFound <==>
      !(verb == "OPTIONS" && ApiPrefix <= pathname) && !(verb == "POST" && pathname in {LoginPath, ChangePasswordPath})
  {
    assert "OPTIONS" != "POST" by { assert "OPTIONS"[1] != "POST"[1]; }
    assert LoginPath != ChangePasswordPath by { assert LoginPath[5] != ChangePasswordPath[5]; }
    if verb == "OPTIONS" && ApiPrefix <= pathname then Preflight
    else if verb == "POST" && pathname == LoginPath then LoginRoute
    else if verb == "POST" && pathname == ChangePasswordPath then ChangePasswordRoute
    else NotFound
  }

  /** The response to a request and the table afterwards. */
  function Served(rows: seq<UserRow>, online: bool, request: Request, now: string,
                  parse: string -> Option<Json>, sha256: string -> seq<Hex.Byte>): (o: Outcome)
    ensures o.response.headers == JsonHeaders
    ensures o.response.status in {200, 204, 400, 401, 404, 413, 500}
    ensures o.response.status != 200 ==> o.rows == rows
    // the preflight's body is `{}`; every other answer is the envelope
    ensures o.response.status == 204 ==> o.response.payload == JObj(map[])
    ensures o.response.status != 204 ==> SafeResponse(o.response)
  {
    match RouteOf(request.verb, request.pathname)
    case Preflight => Outcome(SendJson(204, JObj(map[])), rows)
    case LoginRoute => Login(rows, online, RequestBody.BodyValue(request.chunks, parse), now, sha256)
    case ChangePasswordRoute => ChangePassword(rows, online, RequestBody.BodyValue(request.chunks, parse), sha256)
    case NotFound => Outcome(Failure(404, NotFoundMessage), rows)
  }

  /** The `createServer` callback. */
  method Serve(users: UserTable, request: Request, now: string, parse: string -> Option<Json>,
               sha256: string -> seq<Hex.Byte>) returns (response: Response)
    requires users.Valid()
    requires '\0' !in now  // `toISOString` writes digits and `-:.TZ` only
    modifies users
    ensures users.Valid()
    ensures Outcome(response, users.rows) == Served(old(users.rows), users.online, request, now, parse, sha256)
  {
    var route := RouteOf(request.verb, request.pathname);
    match route
    case Preflight =>
      response := SendJson(204, JObj(map[]));
    case LoginRoute =>
      response := HandleLogin(users, request.chunks, parse, now, sha256);
    case ChangePasswordRoute =>
      response := HandlePasswordChange(users, request.chunks, parse, sha256);
    case NotFound =>
      response := Failure(404, NotFoundMessage);
  }

  /** A preflight on any `/api/` path is an empty 204 and leaves the store alone, whatever its body. */
  lemma PreflightAnswered(rows: seq<UserRow>, online: bool, pathname: string, chunks: seq<string>, now: string,
                          parse: string -> Option<Json>, sha256: string -> seq<Hex.Byte>)
    requires ApiPrefix <= pathname
    ensures Served(rows, online, Request("OPTIONS", pathname, chunks), now, parse, sha256)
            == Outcome(SendJson(204, JObj(map[])), rows)
  {
  }

  /** Any other verb or path is a 404 and the body is never read. */
  lemma UnknownRouteNotFound(rows: seq<UserRow>, online: bool, request: Request, now: string,
                             parse: string -> Option<Json>, sha256: string -> seq<Hex.Byte>)
    requires !(request.verb == "OPTIONS" && ApiPrefix <= request.pathname)
    requires !(request.verb == "POST" && request.pathname in {LoginPath, ChangePasswordPath})
    ensures Served(rows, online, request, now, parse, sha256) == Outcome(Failure(404, NotFoundMessage), rows)
  {
  }

  /** A routed POST whose text exceeds the limit is a 413 and nothing is written. */
  lemma OversizedBodyRejected(rows: seq<UserRow>, online: bool, request: Request, now: string,
                              parse: string -> Option<Json>, sha256: string -> seq<Hex.Byte>)
    requires RouteOf(request.verb, request.pathname) in {LoginRoute, ChangePasswordRoute}
    requires |RequestBody.Concat(request.chunks)| > RequestBody.RequestLimit
    ensures var o := Served(rows, online, request, now, parse, sha256);
      o.response.status == 413 && o.rows == rows
  {
  }

  /** A routed POST whose non-empty text within the limit does not parse is a 400 and nothing is written. */
  lemma UnparsableBodyRejected(rows: seq<UserRow>, online: bool, request: Request, now: string,
                               parse: string -> Option<Json>, sha256: string -> seq<Hex.Byte>)
    requires RouteOf(request.verb, request.pathname) in {LoginRoute, ChangePasswordRoute}
    requires var data := RequestBody.Concat(request.chunks);
      data != [] && |data| <= RequestBody.RequestLimit && parse(data).None?
    ensures var o := Served(rows, online, request, now, parse, sha256);
      o.response.status == 400 && o.rows == rows
  {
  }

  /** An empty body reads as `{}`, which lacks the fields either route needs: a 400 with that route's message. */
  lemma EmptyBodyMissingFields(rows: seq<UserRow>, online: bool, verb: string, pathname: string, now: string,
                               parse: string -> Option<Json>, sha256: string -> seq<Hex.Byte>)
    requires RouteOf(verb, pathname) in {LoginRoute, ChangePasswordRoute}
    ensures Served(rows, online, Request(verb, pathname, []), now, parse, sha256)
            == Outcome(Failure(400, if pathname == LoginPath then LoginMissing else ChangeMissing), rows)
  {
  }
}
