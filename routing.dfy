/** The server around the wire engine: the route table, request dispatch
    to static files or handlers, and the request/response cycle each
    connection repeats. */
module Routing {
  import opened Outcomes
  import opened Http
  import opened Wire
  import ContentTypes
  import Protocol

  /** A request handler, known by its identity; what it answers for a query
      text is given by the caller as a function. */
  datatype Handler = Handler(id: nat)

  /** One registration: an endpoint and the handler that serves it. */
  datatype WebPoint = WebPoint(point: Endpoint, handler: Handler)

  /** The body of every not-found answer. */
  const NotFoundText: seq<char> := "404 Not Found"

  /** The not-found answer: 404 with an HTML body. */
  const NotFound: Response := Response(404, Some(Content(TextHtml, NotFoundText)))

  /** The files the server can see: whether a path names a directory,
      whether it exists, and what it holds. */
  datatype FileSystem = FileSystem(
    isDirectory: seq<char> -> bool,
    present: seq<char> -> bool,
    contents: seq<char> -> seq<char>)

  /** The route table after registering `points` in order on top of `routes`. */
  function Registered(routes: map<Endpoint, Handler>, points: seq<WebPoint>): (r: map<Endpoint, Handler>)
    ensures r.Keys == routes.Keys + set i | 0 <= i < |points| :: points[i].point
  {
    if points == [] then routes
    else
      var last := points[|points| - 1];
      var earlier := Registered(routes, points[..|points| - 1]);
      assert forall i :: 0 <= i < |points| - 1 ==> points[..|points| - 1][i] == points[i];
      earlier[last.point := last.handler]
  }

  /** Of several registrations of one endpoint the last one wins. */
  lemma {:induction false} LastRegistrationWins(routes: map<Endpoint, Handler>, points: seq<WebPoint>, i: nat)
    requires i < |points|
    requires forall j :: i < j < |points| ==> points[j].point != points[i].point
    ensures points[i].point in Registered(routes, points)
    ensures Registered(routes, points)[points[i].point] == points[i].handler
  {
    if i < |points| - 1 {
      var init := points[..|points| - 1];
      assert forall j :: i < j < |init| ==> init[j] == points[j];
      LastRegistrationWins(routes, init, i);
      assert init[i] == points[i];
    }
  }

  /** A route no registration names keeps its handler. */
  lemma {:induction false} UnnamedRouteKept(routes: map<Endpoint, Handler>, points: seq<WebPoint>, e: Endpoint)
    requires e in routes
    requires forall j :: 0 <= j < |points| ==> points[j].point != e
    ensures e in Registered(routes, points) && Registered(routes, points)[e] == routes[e]
  {
    if points != [] {
      var init := points[..|points| - 1];
      assert forall j :: 0 <= j < |init| ==> init[j] == points[j];
      UnnamedRouteKept(routes, init, e);
    }
  }

  /** The position of the last `c` in `s`, if any. */
  function LastIndexOf(s: seq<char>, c: char): (r: Option<nat>)
    ensures r.None? ==> forall k :: 0 <= k < |s| ==> s[k] != c
    ensures r.Some? ==> (r.value < |s| && s[r.value] == c
      && forall k :: r.value < k < |s| ==> s[k] != c)
  {
    if s == [] then None
    else if s[|s| - 1] == c then Some(|s| - 1)
    else
      var r := LastIndexOf(s[..|s| - 1], c);
      assert forall k :: 0 <= k < |s| - 1 ==> s[..|s| - 1][k] == s[k];
      r
  }

  /** Whether ".." occurs anywhere in `s`. */
  function ContainsDotDot(s: seq<char>): (b: bool)
    ensures b <==> exists k :: 0 <= k < |s| - 1 && s[k] == '.' && s[k + 1] == '.'
  {
    if |s| < 2 then false
    else if s[0] == '.' && s[1] == '.' then true
    else
      var b := ContainsDotDot(s[1..]);
      assert forall k :: 0 <= k < |s| - 1 ==> s[1..][k] == s[k + 1];
      assert b ==> exists k :: 0 <= k < |s| - 1 && s[k] == '.' && s[k + 1] == '.' by {
        if b {
          var k :| 0 <= k < |s| - 2 && s[1..][k] == '.' && s[1..][k + 1] == '.';
          assert s[k + 1] == '.' && s[k + 2] == '.';
        }
      }
      b
  }

  /** The media type of a static file that is not a directory: the table
      entry of the url's suffix from its last '.', octet-stream without one. */
  function StaticType(url: seq<char>): (t: ContentType)
    ensures (forall k :: 0 <= k < |url| ==> url[k] != '.') ==> t == ApplicationOctetStream
    ensures forall k :: 0 <= k < |url| && url[k] == '.' && (forall q :: k < q < |url| ==> url[q] != '.') ==>
                          t == ContentTypes.FromFileExtension(url[k..])
  {
    match LastIndexOf(url, '.')
    case None => ApplicationOctetStream
    case Some(k) => ContentTypes.FromFileExtension(url[k..])
  }

  /** Path composition: an absolute right-hand side replaces the left one;
      otherwise a separator goes between a non-empty left side that does
      not end in one and the right side. */
  function Join(base: seq<char>, rest: seq<char>): (p: seq<char>)
    ensures |rest| > 0 && rest[0] == '/' ==> p == rest
    ensures (|rest| == 0 || rest[0] != '/') ==> StartsWith(p, base)
  {
    if |rest| > 0 && rest[0] == '/' then rest
    else if |base| > 0 && base[|base| - 1] != '/' then base + "/" + rest
    else base + rest
  }

  /** Corrected: `rest` without its leading separators. */
  function Relative(rest: seq<char>): (r: seq<char>)
    ensures |r| == 0 || r[0] != '/'
    decreases |rest|
  {
    if |rest| > 0 && rest[0] == '/' then Relative(rest[1..]) else rest
  }

  /** The route lookup that ends every dispatch no static file answers: the
      handler's own answer for the query text, or not found. */
  function RouteAnswer(routes: map<Endpoint, Handler>, request: Request, call: (Handler, seq<char>) -> Response): (r: Response)
    ensures Endpoint(request.kind, request.url) !in routes ==> r == NotFound
    ensures Endpoint(request.kind, request.url) in routes ==>
      r == call(routes[Endpoint(request.kind, request.url)], request.param)
  {
    var e := Endpoint(request.kind, request.url);
    if e in routes then call(routes[e], request.param) else NotFound
  }

  /** The file a static request resolves to, with its media type: the
      directory's index.html as HTML, or the path itself typed by the url. */
  function StaticTarget(path: seq<char>, url: seq<char>, fs: FileSystem): (target: (seq<char>, ContentType))
    ensures fs.isDirectory(path) ==> target.0 == Join(path, "index.html") && target.1 == TextHtml
    ensures fs.isDirectory(path) ==> StartsWith(target.0, path)
    ensures !fs.isDirectory(path) ==> target.0 == path && target.1 == StaticType(url)
  {
    if fs.isDirectory(path) then (Join(path, "index.html"), TextHtml)
    else (path, StaticType(url))
  }

  /** Corrected: the path a static request is looked up at, the rest of
      the url after the static prefix made relative and joined below the
      static root. */
  function StaticPath(staticDir: seq<char>, staticPath: seq<char>, url: seq<char>): (p: seq<char>)
    requires StartsWith(url, staticDir)
    ensures StartsWith(p, staticPath)
  {
    Join(staticPath, Relative(url[|staticDir|..]))
  }

  /** Corrected: a file served from the static tree always lies below the
      static root. */
  lemma StaticTargetBelowRoot(staticDir: seq<char>, staticPath: seq<char>, url: seq<char>, fs: FileSystem)
    requires StartsWith(url, staticDir)
    ensures StartsWith(StaticTarget(StaticPath(staticDir, staticPath, url), url, fs).0, staticPath)
  {
    var path := StaticPath(staticDir, staticPath, url);
    if fs.isDirectory(path) {
      var file := Join(path, "index.html");
      assert StartsWith(file, path);
      assert file[..|staticPath|] == path[..|staticPath|];
    }
  }

  /** Corrected: dispatch as intended. Only a configured static prefix
      enables static files, and the rest of the url is always taken
      relative to the static root; otherwise as Server.FireHandler. */
  function FireHandlerIntended(routes: map<Endpoint, Handler>, staticDir: seq<char>, staticPath: seq<char>,
                               request: Request, fs: FileSystem, call: (Handler, seq<char>) -> Response): (r: Response)
    ensures staticDir == [] || !StartsWith(request.url, staticDir) ==> r == RouteAnswer(routes, request, call)
  {
    var url := request.url;
    if staticDir != [] && StartsWith(url, staticDir) then
      if ContainsDotDot(url) then NotFound
      else
        var target := StaticTarget(StaticPath(staticDir, staticPath, url), url, fs);
        if fs.present(target.0) then Response(200, Some(Content(target.1, fs.contents(target.0))))
        else RouteAnswer(routes, request, call)
    else RouteAnswer(routes, request, call)
  }

  /** Corrected: whatever the intended dispatch serves from the files lies
      below the static root; anything else is not found or the route's
      answer. */
  lemma ServedFilesBelowRoot(routes: map<Endpoint, Handler>, staticDir: seq<char>, staticPath: seq<char>,
                             request: Request, fs: FileSystem, call: (Handler, seq<char>) -> Response)
    ensures var r := FireHandlerIntended(routes, staticDir, staticPath, request, fs, call);
      r == RouteAnswer(routes, request, call) || r == NotFound
      || exists file :: StartsWith(file, staticPath) && fs.present(file)
           && r == Response(200, Some(Content(r.content.value.contentType, fs.contents(file))))
  {
    var url := request.url;
    if staticDir != [] && StartsWith(url, staticDir) && !ContainsDotDot(url) {
      var target := StaticTarget(StaticPath(staticDir, staticPath, url), url, fs);
      StaticTargetBelowRoot(staticDir, staticPath, url, fs);
      if fs.present(target.0) {
        var r := FireHandlerIntended(routes, staticDir, staticPath, request, fs, call);
        assert StartsWith(target.0, staticPath) && r == Response(200, Some(Content(r.content.value.contentType, fs.contents(target.0))));
      }
    }
  }

  /** One exchange of a connection, over the stream its fresh arena
      sees: the request line at the start of the arena, then the header
      block after it. */
  datatype Turn = Turn(request: Request, headers: HeaderEnd)

  function Exchange(inp: Input, deadline: int): (r: Result<Turn>)
    ensures r.Ok? ==> r.value.headers.next <= |inp.window| + 1
  {
    match RequestLine(inp, deadline, 0)
    case Err(f) => Err(f)
    case Ok(line) =>
      match Headers(inp, deadline, line.next)
      case Err(f) => Err(f)
      case Ok(h) => Ok(Turn(line.request, h))
  }

  /** The deadline an exchange leaves, whether it succeeds or fails: the
      one it started with when the request line fails, and otherwise what
      the header scan left, up to its failure if it fails. */
  function ExchangeDeadline(inp: Input, deadline: int): (d: int)
    ensures Exchange(inp, deadline).Ok? ==> d == Exchange(inp, deadline).value.headers.deadline
    ensures RequestLine(inp, deadline, 0).Err? ==> d == deadline
    ensures RequestLine(inp, deadline, 0).Ok? && Exchange(inp, deadline).Err? ==>
      Exchange(inp, deadline).fault == Exhausted(inp, d)
  {
    match RequestLine(inp, deadline, 0)
    case Err(_) => deadline
    case Ok(line) => HeadersDeadline(inp, deadline, line.next)
  }

  /** A cycle that fails hangs (no reply at all) when its wait never ends,
      and otherwise ends in one 500 response. */
  predicate Unanswered(f: Fault)
  {
    f == Hang || f == ArenaFull
  }

  /** The reading half of a cycle on a fresh arena: one read, the request
      line and the header block, agreeing with Exchange. */
  method ReadRequest(http: Protocol.HttpProtocol, now: int, ghost inp: Input, ghost x: Result<Turn>) returns (r: Result<Request>)
    requires http.Sees(inp) && http.it == 0 && http.end == 0 && inp.now == now
    requires x == Exchange(inp, http.deadline)
    modifies http`it, http`end, http`bytesLeft, http`deadline, http.buf, http.connection`pending
    ensures http.Sees(inp)
    ensures (r.Ok? <==> x.Ok?)
      && (x.Ok? ==> r.value == x.value.request && http.deadline == x.value.headers.deadline)
      && (x.Err? ==> r.fault == x.fault)
    ensures http.deadline == ExchangeDeadline(inp, old(http.deadline))
  {
    var got := http.Receive(now);
    if got.Err? {
      return Err(got.fault);
    }
    r := http.ParseRequest(now, inp);
    if r.Err? {
      return;
    }
    var headers := http.ReceiveHeaders(now, inp);
    if headers.Err? {
      return Err(headers.fault);
    }
  }

  /** A fresh arena (whatever was buffered and not consumed is dropped)
      and the reading half of a cycle on it; `x` is the exchange the
      pending stream holds. */
  method Accept(http: Protocol.HttpProtocol, arena: array<char>, now: int)
    returns (r: Result<Request>, ghost inp: Input, ghost x: Result<Turn>)
    requires http.connection.Valid()
    modifies http`it, http`end, http`bytesLeft, http`deadline, http`buf, http`stream, arena
    modifies http.connection`pending
    ensures http.connection.Valid()
    ensures inp == InputOf(old(Flatten(http.connection.pending)), arena.Length, http.connection.open, now)
    ensures x == Exchange(inp, old(http.deadline))
    ensures (r.Ok? <==> x.Ok?)
      && (x.Ok? ==> r.value == x.value.request && http.deadline == x.value.headers.deadline)
      && (x.Err? ==> r.fault == x.fault)
    ensures http.deadline == ExchangeDeadline(inp, old(http.deadline))
  {
    http.SetBuffer(arena);
    inp := InputOf(http.stream, arena.Length, http.connection.open, now);
    x := Exchange(inp, http.deadline);
    r := ReadRequest(http, now, inp, x);
  }

  class Server {
    var routes: map<Endpoint, Handler>
    var staticDir: seq<char>
    var staticPath: seq<char>

    /** A server with no routes and no static files. */
    constructor ()
      ensures routes == map[] && staticDir == [] && staticPath == []
    {
      routes := map[];
      staticDir := [];
      staticPath := [];
    }

    /** Registers routes in order; existing routes stay unless re-registered. */
    method SetRoutes(points: seq<WebPoint>)
      modifies this`routes
      ensures routes == Registered(old(routes), points)
    {
      for i := 0 to |points|
        invariant routes == Registered(old(routes), points[..i])
      {
        assert points[..i + 1][..i] == points[..i];
        routes := routes[points[i].point := points[i].handler];
      }
      assert points[..|points|] == points;
    }

    /** Sets the url prefix of static files and the directory they live in. */
    method StaticFiles(directory: seq<char>, path: seq<char>)
      modifies this`staticDir, this`staticPath
      ensures staticDir == directory && staticPath == path
    {
      staticPath := path;
      staticDir := directory;
    }

    /** Dispatch of a parsed request as the server is written: any url
        under the static prefix (every url, while none is configured) that
        contains ".." is not found; otherwise the file at the static root
        joined with the rest of the url (a directory's index.html) is served
        with code 200 if it exists. The rest is joined as it is, so when it
        starts with '/' it replaces the root. Everything else is answered by
        the registered handler, or not found. */
    function FireHandler(request: Request, fs: FileSystem, call: (Handler, seq<char>) -> Response): (r: Response)
      reads this`routes, this`staticDir, this`staticPath
      ensures !StartsWith(request.url, staticDir) ==> r == RouteAnswer(routes, request, call)
      ensures r != RouteAnswer(routes, request, call) && r != NotFound ==>
        StartsWith(request.url, staticDir) && !ContainsDotDot(request.url) && r.code == 200 && r.content.Some?
    {
      var url := request.url;
      if StartsWith(url, staticDir) then
        if ContainsDotDot(url) then NotFound
        else
          var target := StaticTarget(Join(staticPath, url[|staticDir|..]), url, fs);
          if fs.present(target.0) then Response(200, Some(Content(target.1, fs.contents(target.0))))
          else RouteAnswer(routes, request, call)
      else RouteAnswer(routes, request, call)
    }

    /** What a cycle answers for an exchange: the dispatched response,
        nothing when the failed wait would never end, or a 500 response. */
    function Answer(x: Result<Turn>, fs: FileSystem, call: (Handler, seq<char>) -> Response): (r: Option<Response>)
      reads this`routes, this`staticDir, this`staticPath
      ensures x.Ok? ==> r == Some(FireHandler(x.value.request, fs, call))
      ensures x.Err? && Unanswered(x.fault) ==> r.None?
      ensures x.Err? && !Unanswered(x.fault) ==> r == Some(Response(500, None))
    {
      match x
      case Ok(turn) => Some(FireHandler(turn.request, fs, call))
      case Err(f) => if Unanswered(f) then None else Some(Response(500, None))
    }

    /** The writing half of a cycle: the dispatched response for a
        request, a 500 for a failure that ended its wait, nothing for one
        that never would. */
    method Reply(http: Protocol.HttpProtocol, request: Result<Request>, ghost x: Result<Turn>, date: UtcTime, version: seq<char>,
                 fs: FileSystem, call: (Handler, seq<char>) -> Response)
      requires date.Valid()
      requires (request.Ok? <==> x.Ok?) && (x.Ok? ==> request.value == x.value.request) && (x.Err? ==> request.fault == x.fault)
      modifies http.connection`sent
      ensures http.connection.sent == old(http.connection.sent) + match Answer(x, fs, call)
        case None => []
        case Some(response) => ResponseText(response, http.deadline, date, version)
    {
      if request.Ok? {
        var response := FireHandler(request.value, fs, call);
        assert Answer(x, fs, call) == Some(response);
        http.WriteResponse(response, date, version);
      } else if !Unanswered(request.fault) {
        assert Answer(x, fs, call) == Some(Response(500, None));
        http.WriteResponse(Response(500, None), date, version);
      }
    }

    /** One cycle of a connection: a fresh arena (whatever was buffered
        and not consumed is dropped), the request, dispatch and the
        response. It reports whether the connection goes on, which it does
        while the deadline the headers left is after `now`. A failure ends
        the connection: with one 500 response, or with none when the failed
        wait would never end. */
    method Cycle(http: Protocol.HttpProtocol, arena: array<char>, now: int, date: UtcTime, version: seq<char>,
                 fs: FileSystem, call: (Handler, seq<char>) -> Response)
      returns (again: bool, ghost inp: Input, ghost x: Result<Turn>)
      requires http.connection.Valid() && date.Valid()
      modifies http`it, http`end, http`bytesLeft, http`deadline, http`buf, http`stream, arena
      modifies http.connection`pending, http.connection`sent
      ensures http.connection.Valid()
      ensures inp == InputOf(old(Flatten(http.connection.pending)), arena.Length, http.connection.open, now)
      ensures x == Exchange(inp, old(http.deadline))
      ensures again == (x.Ok? && http.deadline > now)
      ensures x.Ok? ==> http.deadline == x.value.headers.deadline
      ensures http.deadline == ExchangeDeadline(inp, old(http.deadline))
      ensures http.connection.sent == old(http.connection.sent) + match Answer(x, fs, call)
        case None => []
        case Some(response) => ResponseText(response, http.deadline, date, version)
    {
      var request;
      request, inp, x := Accept(http, arena, now);
      Reply(http, request, x, date, version, fs, call);
      again := request.Ok? && http.deadline > now;
    }

    /** A static url containing ".." is not found, whatever the files;
        with no static prefix configured, that is every url with "..". */
    lemma DotDotNotFound(request: Request, fs: FileSystem, call: (Handler, seq<char>) -> Response)
      requires StartsWith(request.url, staticDir)
      requires exists k :: 0 <= k < |request.url| - 1 && request.url[k] == '.' && request.url[k + 1] == '.'
      ensures FireHandler(request, fs, call) == NotFound
    {
    }

    /** A url whose rest after the static prefix starts with '/' is served
        from that absolute path, whatever the static root: with static
        files under "/static" served from "www", "/static/etc/passwd"
        answers with the file /etc/passwd, and a fresh server answers
        "/etc/passwd" with it too. A relative root never prefixes such a
        path. */
    lemma AbsoluteRestEscapesRoot(rest: seq<char>, kind: RequestType, param: seq<char>,
                                  fs: FileSystem, call: (Handler, seq<char>) -> Response)
      requires |rest| > 0 && rest[0] == '/'
      requires !ContainsDotDot(staticDir + rest)
      requires !fs.isDirectory(rest) && fs.present(rest)
      ensures var url := staticDir + rest;
        FireHandler(Request(kind, url, param), fs, call)
          == Response(200, Some(Content(StaticType(url), fs.contents(rest))))
      ensures |staticPath| > 0 && staticPath[0] != '/' ==> !StartsWith(rest, staticPath)
    {
      var url := staticDir + rest;
      assert url[..|staticDir|] == staticDir;
      assert url[|staticDir|..] == rest;
    }

    /** The ordinary case: a present file that is not a directory, at the
        static root joined with the url's rest, is served with the media
        type of the url's suffix from its last '.'. */
    lemma ServesPresentFile(request: Request, fs: FileSystem, call: (Handler, seq<char>) -> Response)
      requires StartsWith(request.url, staticDir) && !ContainsDotDot(request.url)
      requires !fs.isDirectory(Join(staticPath, request.url[|staticDir|..]))
      requires fs.present(Join(staticPath, request.url[|staticDir|..]))
      ensures FireHandler(request, fs, call)
        == Response(200, Some(Content(StaticType(request.url), fs.contents(Join(staticPath, request.url[|staticDir|..])))))
    {
    }

    /** A directory is answered with its index.html, as HTML. */
    lemma DirectoryServesIndex(request: Request, fs: FileSystem, call: (Handler, seq<char>) -> Response)
      requires StartsWith(request.url, staticDir) && !ContainsDotDot(request.url)
      requires fs.isDirectory(Join(staticPath, request.url[|staticDir|..]))
      requires fs.present(Join(Join(staticPath, request.url[|staticDir|..]), "index.html"))
      ensures FireHandler(request, fs, call)
        == Response(200, Some(Content(TextHtml, fs.contents(Join(Join(staticPath, request.url[|staticDir|..]), "index.html")))))
    {
    }

    /** A static path that does not exist falls through to the routes. */
    lemma MissingFileFallsThrough(request: Request, fs: FileSystem, call: (Handler, seq<char>) -> Response)
      requires StartsWith(request.url, staticDir) && !ContainsDotDot(request.url)
      requires !fs.present(StaticTarget(Join(staticPath, request.url[|staticDir|..]), request.url, fs).0)
      ensures FireHandler(request, fs, call) == RouteAnswer(routes, request, call)
    {
    }
  }
}
