/** What the wire engine computes, stated over the whole byte stream a
    client sends: the bytes the arena can ever hold (the window), whether
    the client sent more than that, and how an idle wait ends. The methods
    of the Protocol module are proved to agree with these functions, so
    their results do not depend on how the stream was cut into reads. */
module Wire {
  import opened Outcomes
  import opened Http
  import opened Utilities
  import opened Decimal
  import ContentTypes

  /** The largest time_t value; the deadline sentinel for "Connection: close". */
  const TimeMax: int := 0x7fff_ffff_ffff_ffff
  /** Seconds a connection stays open after a request, and the advertised timeout. */
  const KeepaliveTimeout: int := 30
  /** The only accepted ending of a request line. */
  const Handshake: seq<char> := " HTTP/1.1\r\n"

  function Min(a: nat, b: nat): nat
  {
    if a <= b then a else b
  }

  /** The bytes of a sequence of reads, in order. */
  function Flatten(chunks: seq<seq<char>>): seq<char>
  {
    if chunks == [] then [] else chunks[0] + Flatten(chunks[1..])
  }

  /** How a read ends when nothing is pending. The poll loop throws at once
      when the deadline has passed or the transport is closed; otherwise it
      keeps polling, which ends in a timeout once a finite deadline passes
      and never ends when the deadline is the close sentinel. */
  function IdleFault(open: bool, deadline: int, now: int): (f: Fault)
    ensures f == Hang <==> (open && deadline == TimeMax && now <= deadline)
    ensures f == Timeout || f == Hang
  {
    if deadline < now || !open then Timeout
    else if deadline == TimeMax then Hang
    else Timeout
  }

  /** Everything a reader over an arena can ever see of a client's stream. */
  datatype Input = Input(window: seq<char>, overflow: bool, open: bool, now: int)

  /** The input a stream presents to an arena of the given capacity. */
  function InputOf(stream: seq<char>, capacity: nat, open: bool, now: int): (inp: Input)
    ensures |inp.window| == Min(|stream|, capacity) && inp.window == stream[..|inp.window|]
    ensures inp.overflow <==> |stream| > capacity
    ensures inp.open == open && inp.now == now
  {
    Input(stream[..Min(|stream|, capacity)], |stream| > capacity, open, now)
  }

  /** The fault of a wait that needs more bytes than the window holds: the
      arena is full while more was sent, or the stream has run dry. */
  function Exhausted(inp: Input, deadline: int): Fault
  {
    if inp.overflow then ArenaFull else IdleFault(inp.open, deadline, inp.now)
  }

  /** The first position at or after i whose byte is in the set, or |s|. */
  function Scan(s: seq<char>, i: nat, matches: set<char>): (k: nat)
    requires i <= |s|
    ensures i <= k <= |s|
    ensures k < |s| ==> s[k] in matches
    decreases |s| - i
  {
    if i == |s| then i
    else if s[i] in matches then i
    else Scan(s, i + 1, matches)
  }

  /** Scan passes over no byte of the set. */
  lemma {:induction false} ScanSkips(s: seq<char>, i: nat, matches: set<char>)
    requires i <= |s|
    ensures forall q :: i <= q < Scan(s, i, matches) ==> s[q] !in matches
    decreases |s| - i
  {
    if i < |s| && s[i] !in matches {
      ScanSkips(s, i + 1, matches);
    }
  }

  /** A position with a match and none before it is where Scan stops. */
  lemma {:induction false} ScanStopsAt(s: seq<char>, i: nat, k: nat, matches: set<char>)
    requires i <= k <= |s|
    requires forall q :: i <= q < k ==> s[q] !in matches
    requires k < |s| ==> s[k] in matches
    ensures Scan(s, i, matches) == k
    decreases k - i
  {
    if i < k {
      ScanStopsAt(s, i + 1, k, matches);
    }
  }

  /** Scanning a prefix of w agrees with scanning w up to the prefix's
      end: a match found in the prefix is the match in w, and a scan that
      runs off the prefix goes on in w from there. */
  lemma {:induction false} ScanPrefix(w: seq<char>, p: seq<char>, i: nat, matches: set<char>)
    requires |p| <= |w| && p == w[..|p|] && i <= |p|
    ensures Scan(p, i, matches) < |p| ==> Scan(w, i, matches) == Scan(p, i, matches)
    ensures Scan(p, i, matches) == |p| ==> Scan(w, i, matches) == Scan(w, |p|, matches)
    decreases |p| - i
  {
    if i < |p| {
      assert p[i] == w[i];
      if p[i] !in matches {
        ScanPrefix(w, p, i + 1, matches);
      }
    }
  }

  /** Slicing a concatenation that sits at position i of w. */
  lemma SplitAt(w: seq<char>, i: nat, a: seq<char>, b: seq<char>)
    requires i + |a| + |b| <= |w| && w[i..i + |a| + |b|] == a + b
    ensures w[i..i + |a|] == a && w[i + |a|..i + |a| + |b|] == b
  {
    assert w[i..i + |a|] == w[i..i + |a| + |b|][..|a|];
    assert w[i + |a|..i + |a| + |b|] == w[i..i + |a| + |b|][|a|..];
  }

  /** A scan over a segment free of matches stops at the match after it. */
  lemma ScanAcross(w: seq<char>, i: nat, segment: seq<char>, matches: set<char>)
    requires i + |segment| < |w| && w[i..i + |segment|] == segment
    requires forall q :: 0 <= q < |segment| ==> segment[q] !in matches
    requires w[i + |segment|] in matches
    ensures Scan(w, i, matches) == i + |segment|
  {
    forall q | i <= q < i + |segment| ensures w[q] !in matches {
      assert w[q] == w[i..i + |segment|][q - i];
    }
    ScanStopsAt(w, i, i + |segment|, matches);
  }

  /** A parsed request line and the position just past its "\r\n". */
  datatype Line = Line(request: Request, next: nat)

  /** The request line starting at position i: at least 8 bytes, a method
      classified from its first bytes, the path up to the first '?' or ' ',
      and then " HTTP/1.1\r\n" at that ' ' or right after that '?'. */
  function RequestLine(inp: Input, deadline: int, i: nat): (r: Result<Line>)
    requires i <= |inp.window|
    ensures r.Ok? ==> i + 8 <= r.value.next <= |inp.window|
  {
    var w := inp.window;
    if |w| < i + 8 then Err(Exhausted(inp, deadline))
    else match GetType(w[i], w[i + 1])
      case Err(f) => Err(f)
      case Ok(c) => RequestTarget(inp, deadline, c.kind, i + c.advance)
  }

  /** The rest of a request line once the method is known: the path runs
      from `start` to the first '?' or ' '. The scan for the end of a query
      is created but never awaited, so it does not run: the query stays
      empty and the version check starts at the ' ', or right after the '?'. */
  function RequestTarget(inp: Input, deadline: int, kind: RequestType, start: nat): (r: Result<Line>)
    requires start <= |inp.window|
    ensures r.Ok? ==> start + |Handshake| <= r.value.next <= |inp.window|
    ensures r.Ok? ==> r.value.request.param == [] && r.value.request.kind == kind
  {
    var w := inp.window;
    var k := Scan(w, start, {'?', ' '});
    if k == |w| then Err(Exhausted(inp, deadline))
    else RequestVersion(inp, deadline, Request(kind, w[start..k], []), if w[k] == '?' then k + 1 else k)
  }

  /** Corrected: the target as intended, where a '?' is followed by the
      query up to the next ' ' and the version check at that ' '. */
  function RequestTargetIntended(inp: Input, deadline: int, kind: RequestType, start: nat): (r: Result<Line>)
    requires start <= |inp.window|
    ensures r.Ok? ==> start + |Handshake| <= r.value.next <= |inp.window|
  {
    var w := inp.window;
    var k := Scan(w, start, {'?', ' '});
    if k == |w| then Err(Exhausted(inp, deadline))
    else if w[k] == ' ' then RequestVersion(inp, deadline, Request(kind, w[start..k], []), k)
    else RequestQuery(inp, deadline, kind, w[start..k], k + 1)
  }

  /** Corrected: the query from position `from` to the next ' ', then the
      version check at that ' '. */
  function RequestQuery(inp: Input, deadline: int, kind: RequestType, path: seq<char>, from: nat): (r: Result<Line>)
    requires from <= |inp.window|
    ensures r.Ok? ==> from + |Handshake| <= r.value.next <= |inp.window|
    ensures r.Ok? ==> ' ' !in r.value.request.param && r.value.request.url == path
  {
    var w := inp.window;
    var q := Scan(w, from, {' '});
    ScanSkips(w, from, {' '});
    if q == |w| then Err(Exhausted(inp, deadline))
    else RequestVersion(inp, deadline, Request(kind, path, w[from..q]), q)
  }

  /** The version check at position m, which ends the request line. */
  function RequestVersion(inp: Input, deadline: int, request: Request, m: nat): (r: Result<Line>)
    ensures r.Ok? ==> r.value == Line(request, m + |Handshake|) && m + |Handshake| <= |inp.window|
  {
    var w := inp.window;
    if |w| < m + |Handshake| then Err(Exhausted(inp, deadline))
    else if w[m..m + |Handshake|] != Handshake then Err(WrongHttpVersion)
    else Ok(Line(request, m + |Handshake|))
  }

  /** The target whose path ends at k, the first '?' or ' ' after start:
      the version check at a ' ', or right after a '?'. */
  ghost function TargetEnd(inp: Input, deadline: int, kind: RequestType, start: nat, k: nat): (r: Result<Line>)
    requires start <= k < |inp.window| && k == Scan(inp.window, start, {'?', ' '})
    ensures r == RequestTarget(inp, deadline, kind, start)
  {
    var w := inp.window;
    RequestVersion(inp, deadline, Request(kind, w[start..k], []), if w[k] == ' ' then k else k + 1)
  }

  /** A parse result agrees with a request-line specification: the same
      success or failure, the same request and end position, the same fault. */
  predicate LineAgrees(r: Result<Request>, next: nat, spec: Result<Line>)
  {
    (r.Ok? <==> spec.Ok?)
    && (spec.Ok? ==> r.value == spec.value.request && next == spec.value.next)
    && (spec.Err? ==> r.fault == spec.fault)
  }

  /** Once the method is classified, the request line is its target. */
  lemma LineFromTarget(inp: Input, deadline: int, i: nat, c: Classified)
    requires i + 8 <= |inp.window| && GetType(inp.window[i], inp.window[i + 1]) == Ok(c)
    ensures RequestLine(inp, deadline, i) == RequestTarget(inp, deadline, c.kind, i + c.advance)
  {
  }

  /** A method token and a space at i that classify as c, with eight
      bytes in the window, hand the line to the target after the space. */
  lemma MethodThenTarget(inp: Input, deadline: int, i: nat, token: seq<char>, c: Classified, target: Result<Line>)
    requires |token| >= 2 && GetType(token[0], token[1]) == Ok(c) && c.advance == |token| + 1
    requires i + 8 <= |inp.window|
    requires i + |token| + 1 <= |inp.window| && inp.window[i..i + |token| + 1] == token + " "
    requires RequestTarget(inp, deadline, c.kind, i + |token| + 1) == target
    ensures RequestLine(inp, deadline, i) == target
  {
    var w := inp.window;
    assert w[i] == (token + " ")[0] && w[i + 1] == (token + " ")[1];
    LineFromTarget(inp, deadline, i, c);
  }

  /** A path free of '?' and ' ' followed by the delimiter d ends where
      the target scan stops. */
  lemma PathEnd(w: seq<char>, start: nat, path: seq<char>, d: char)
    requires ' ' !in path && '?' !in path && d in {'?', ' '}
    requires start + |path| < |w| && w[start..start + |path| + 1] == path + [d]
    ensures Scan(w, start, {'?', ' '}) == start + |path| && w[start + |path|] == d
    ensures w[start..start + |path|] == path
  {
    SplitAt(w, start, path, [d]);
    assert w[start + |path|] == w[start + |path|..start + |path| + 1][0];
    ScanAcross(w, start, path, {'?', ' '});
  }

  /** A path free of '?' and ' ' followed by ' ' hands the target to the
      version check at that ' '. */
  lemma TargetThenVersion(inp: Input, deadline: int, kind: RequestType, start: nat, path: seq<char>)
    requires ' ' !in path && '?' !in path
    requires start + |path| < |inp.window| && inp.window[start..start + |path| + 1] == path + [' ']
    ensures RequestTarget(inp, deadline, kind, start)
      == RequestVersion(inp, deadline, Request(kind, path, []), start + |path|)
  {
    PathEnd(inp.window, start, path, ' ');
  }

  /** " HTTP/1.1\r\n" at m completes the line. */
  lemma VersionAt(inp: Input, deadline: int, request: Request, m: nat)
    requires m + |Handshake| <= |inp.window| && inp.window[m..m + |Handshake|] == Handshake
    ensures RequestVersion(inp, deadline, request, m) == Ok(Line(request, m + |Handshake|))
  {
  }

  /** Any other bytes at m, when eleven are in the window, fail the version check. */
  lemma VersionMismatch(inp: Input, deadline: int, request: Request, m: nat)
    requires m + |Handshake| <= |inp.window| && inp.window[m..m + |Handshake|] != Handshake
    ensures RequestVersion(inp, deadline, request, m) == Err(WrongHttpVersion)
  {
  }

  /** A target "<path> HTTP/1.1\r\n" is the path with an empty query. */
  lemma PlainTarget(inp: Input, deadline: int, kind: RequestType, start: nat, path: seq<char>)
    requires ' ' !in path && '?' !in path
    requires start + |path| + |Handshake| <= |inp.window|
    requires inp.window[start..start + |path| + |Handshake|] == path + Handshake
    ensures RequestTarget(inp, deadline, kind, start)
      == Ok(Line(Request(kind, path, []), start + |path| + |Handshake|))
  {
    var w, m := inp.window, start + |path|;
    SplitAt(w, start, path, Handshake);
    assert w[start..m + 1] == path + [' '] by {
      assert w[m] == w[m..m + |Handshake|][0];
    }
    TargetThenVersion(inp, deadline, kind, start, path);
    VersionAt(inp, deadline, Request(kind, path, []), m);
  }

  /** Corrected: a target "<path>?<query> HTTP/1.1\r\n" whose query holds
      no ' ' is the path and that query. */
  lemma QueryTarget(inp: Input, deadline: int, kind: RequestType, start: nat, path: seq<char>, query: seq<char>)
    requires ' ' !in path && '?' !in path && ' ' !in query
    requires var m := start + |path| + 1; var e := m + |query|;
      e + |Handshake| <= |inp.window|
      && inp.window[start..m] == path + "?"
      && inp.window[m..e] == query && inp.window[e..e + |Handshake|] == Handshake
    ensures RequestTargetIntended(inp, deadline, kind, start)
      == Ok(Line(Request(kind, path, query), start + |path| + 1 + |query| + |Handshake|))
  {
    QueryAfterPath(inp, deadline, kind, start, path);
    QueryThenVersion(inp, deadline, kind, path, start + |path| + 1, query);
  }

  /** Corrected: a path free of '?' and ' ' followed by '?' hands the
      target to the query read right after the '?'. */
  lemma QueryAfterPath(inp: Input, deadline: int, kind: RequestType, start: nat, path: seq<char>)
    requires ' ' !in path && '?' !in path
    requires start + |path| < |inp.window| && inp.window[start..start + |path| + 1] == path + "?"
    ensures RequestTargetIntended(inp, deadline, kind, start)
      == RequestQuery(inp, deadline, kind, path, start + |path| + 1)
  {
    PathEnd(inp.window, start, path, '?');
  }

  /** Corrected: a query without ' ' read from `m`, followed by
      " HTTP/1.1\r\n", gives the request with that query. */
  lemma QueryThenVersion(inp: Input, deadline: int, kind: RequestType, path: seq<char>, m: nat, query: seq<char>)
    requires ' ' !in query
    requires var e := m + |query|;
      e + |Handshake| <= |inp.window| && inp.window[m..e] == query && inp.window[e..e + |Handshake|] == Handshake
    ensures RequestQuery(inp, deadline, kind, path, m)
      == Ok(Line(Request(kind, path, query), m + |query| + |Handshake|))
  {
    var w, e := inp.window, m + |query|;
    assert w[e] == w[e..e + |Handshake|][0];
    ScanAcross(w, m, query, {' '});
    VersionAt(inp, deadline, Request(kind, path, query), e);
  }

  /** As written: after "<path>?" anything but a ' ' fails the version
      check, since the check starts right after the '?'. */
  lemma QueryTargetAsWritten(inp: Input, deadline: int, kind: RequestType, start: nat, path: seq<char>)
    requires ' ' !in path && '?' !in path
    requires var m := start + |path| + 1;
      m + |Handshake| <= |inp.window| && inp.window[start..m] == path + "?" && inp.window[m] != ' '
    ensures RequestTarget(inp, deadline, kind, start) == Err(WrongHttpVersion)
  {
    var w, m := inp.window, start + |path| + 1;
    PathEnd(w, start, path, '?');
    assert w[m..m + |Handshake|][0] == w[m];
    VersionMismatch(inp, deadline, Request(kind, path, []), m);
  }

  /** As written: "<path>? HTTP/1.1\r\n" is accepted, as the path with an
      empty query. */
  lemma EmptyQueryTarget(inp: Input, deadline: int, kind: RequestType, start: nat, path: seq<char>)
    requires ' ' !in path && '?' !in path
    requires var m := start + |path| + 1;
      m + |Handshake| <= |inp.window| && inp.window[start..m] == path + "?"
      && inp.window[m..m + |Handshake|] == Handshake
    ensures RequestTarget(inp, deadline, kind, start)
      == Ok(Line(Request(kind, path, []), start + |path| + 1 + |Handshake|))
  {
    PathEnd(inp.window, start, path, '?');
    VersionAt(inp, deadline, Request(kind, path, []), start + |path| + 1);
  }

  /** A method keyword and a space start the line: with eight bytes in
      the window, the line is the target after them. */
  lemma KeywordThenTarget(inp: Input, deadline: int, i: nat, t: RequestType, target: Result<Line>)
    requires i + 8 <= |inp.window|
    requires i + |Keyword(t)| + 1 <= |inp.window| && inp.window[i..i + |Keyword(t)| + 1] == Keyword(t) + " "
    requires RequestTarget(inp, deadline, t, i + |Keyword(t)| + 1) == target
    ensures RequestLine(inp, deadline, i) == target
  {
    GetTypeRecognisesKeyword(t);
    MethodThenTarget(inp, deadline, i, Keyword(t), Classified(t, |Keyword(t)| + 1), target);
  }

  /** A request line "<METHOD> <path> HTTP/1.1\r\n" whose path has no '?'
      and no ' ' parses to that method and path with an empty query, and
      the cursor ends just past the line. */
  lemma WellFormedRequestLine(inp: Input, deadline: int, i: nat, t: RequestType, path: seq<char>)
    requires ' ' !in path && '?' !in path
    requires var start := i + |Keyword(t)| + 1;
      start + |path| + |Handshake| <= |inp.window|
      && inp.window[i..start] == Keyword(t) + " "
      && inp.window[start..start + |path| + |Handshake|] == path + Handshake
    ensures RequestLine(inp, deadline, i)
      == Ok(Line(Request(t, path, []), i + |Keyword(t)| + 1 + |path| + |Handshake|))
  {
    var start := i + |Keyword(t)| + 1;
    PlainTarget(inp, deadline, t, start, path);
    KeywordThenTarget(inp, deadline, i, t, Ok(Line(Request(t, path, []), start + |path| + |Handshake|)));
  }

  /** As written: a request line "<METHOD> <path>?<query> HTTP/1.1\r\n"
      with a non-empty query is refused as a wrong HTTP version. */
  lemma QueryRequestRejected(inp: Input, deadline: int, i: nat, t: RequestType, path: seq<char>, query: seq<char>)
    requires ' ' !in path && '?' !in path && query != [] && query[0] != ' '
    requires var start := i + |Keyword(t)| + 1; var m := start + |path| + 1;
      m + |query| + |Handshake| <= |inp.window|
      && inp.window[i..start] == Keyword(t) + " "
      && inp.window[start..m] == path + "?" && inp.window[m..m + |query|] == query
    ensures RequestLine(inp, deadline, i) == Err(WrongHttpVersion)
  {
    var start := i + |Keyword(t)| + 1;
    var m := start + |path| + 1;
    assert inp.window[m] == inp.window[m..m + |query|][0];
    QueryTargetAsWritten(inp, deadline, t, start, path);
    KeywordThenTarget(inp, deadline, i, t, Err(WrongHttpVersion));
  }

  /** With eight bytes available, a line whose first byte names no method is
      rejected before anything else is looked at. */
  lemma UnknownMethodRejected(inp: Input, deadline: int, i: nat)
    requires i + 8 <= |inp.window|
    requires inp.window[i] !in {'G', 'H', 'P', 'D', 'C', 'O', 'T'}
    ensures RequestLine(inp, deadline, i) == Err(BadRequestType)
  {
    GetTypeRejects(inp.window[i], inp.window[i + 1]);
  }

  /** A header value and the position just past its line end. */
  datatype Value = Value(text: seq<char>, next: nat)

  /** The value starting at i: the bytes before the first '\r' or '\n',
      then two bytes skipped after a '\r' and one after a '\n'. */
  function HeaderValue(inp: Input, deadline: int, i: nat): (r: Result<Value>)
    requires i <= |inp.window|
    ensures r.Ok? ==> i < r.value.next <= |inp.window|
    ensures r.Ok? ==> '\r' !in r.value.text && '\n' !in r.value.text
  {
    var w := inp.window;
    var k := Scan(w, i, {'\r', '\n'});
    ScanSkips(w, i, {'\r', '\n'});
    if k == |w| then Err(Exhausted(inp, deadline))
    else
      var skip := if w[k] == '\r' then 2 else 1;
      if |w| < k + skip then Err(Exhausted(inp, deadline))
      else Ok(Value(w[i..k], k + skip))
  }

  /** Where a header block ends and the deadline it leaves behind. */
  datatype HeaderEnd = HeaderEnd(next: nat, deadline: int)

  /** One step of the header scan: the position and deadline after it,
      and whether it ended the block. */
  datatype HeaderStep = HeaderStep(at: HeaderEnd, last: bool)

  /** The header step at position i. A key ends at the first ':', '\r' or
      '\n'; a ':' is skipped together with one separator byte and the
      field follows. A line end ends the block: the cursor moves two bytes
      on for '\r' and one for '\n' without waiting for them to arrive, so
      it may stop one past the bytes received. */
  function HeaderLine(inp: Input, deadline: int, i: nat): (r: Result<HeaderStep>)
    requires i <= |inp.window|
    ensures r.Ok? ==> i < r.value.at.next <= |inp.window| + 1
    ensures r.Ok? && !r.value.last ==> r.value.at.next <= |inp.window|
    ensures r.Ok? && r.value.last ==> r.value.at.deadline == deadline
    ensures r.Err? ==> r.fault == Exhausted(inp, deadline)
  {
    var w := inp.window;
    var k := Scan(w, i, {':', '\r', '\n'});
    if k == |w| then Err(Exhausted(inp, deadline))
    else if w[k] == ':' then
      if |w| < k + 2 then Err(Exhausted(inp, deadline))
      else HeaderField(inp, deadline, w[i..k], k + 2)
    else Ok(HeaderStep(HeaderEnd(k + (if w[k] == '\r' then 2 else 1), deadline), true))
  }

  /** A header line whose key scan stops inside the window: on ':' the
      field follows two bytes on, unless the window is too short for the
      skip; on a line end the block ends after it at once. */
  lemma HeaderLineAt(inp: Input, deadline: int, i: nat, k: nat)
    requires i <= k < |inp.window| && k == Scan(inp.window, i, {':', '\r', '\n'})
    ensures var w := inp.window;
      if w[k] != ':' then
        HeaderLine(inp, deadline, i) == Ok(HeaderStep(HeaderEnd(k + (if w[k] == '\r' then 2 else 1), deadline), true))
      else if |w| < k + 2 then HeaderLine(inp, deadline, i) == Err(Exhausted(inp, deadline))
      else HeaderLine(inp, deadline, i) == HeaderField(inp, deadline, w[i..k], k + 2)
  {
  }

  /** The deadline a Connection header leaves: the sentinel for "close",
      and 30 seconds from now for any other value. */
  function Kept(value: seq<char>, now: int): int
  {
    if value == "close" then TimeMax else now + KeepaliveTimeout
  }

  /** The field after "<key>: ", at position j. Only a "Connection" key has
      its value read: "close" sets the deadline to the sentinel and any
      other value to now + 30. The value of any other key is not skipped,
      so the next step starts inside it. */
  function HeaderField(inp: Input, deadline: int, key: seq<char>, j: nat): (r: Result<HeaderStep>)
    requires j <= |inp.window|
    ensures r.Ok? ==> j <= r.value.at.next <= |inp.window| && !r.value.last
    ensures r.Err? ==> r.fault == Exhausted(inp, deadline)
  {
    if key == "Connection" then
      match HeaderValue(inp, deadline, j)
      case Err(f) => Err(f)
      case Ok(v) =>
        Ok(HeaderStep(HeaderEnd(v.next, Kept(v.text, inp.now)), false))
    else Ok(HeaderStep(HeaderEnd(j, deadline), false))
  }

  /** A header step agrees with its specification: the same success or
      failure, the same end-of-block flag, position and deadline, the same
      fault. */
  predicate StepAgrees(r: Result<bool>, next: nat, deadline: int, spec: Result<HeaderStep>)
  {
    (r.Ok? <==> spec.Ok?)
    && (spec.Ok? ==> r.value == spec.value.last && next == spec.value.at.next && deadline == spec.value.at.deadline)
    && (spec.Err? ==> r.fault == spec.fault)
  }

  /** The header scan from position i: steps until one ends the block. */
  function Headers(inp: Input, deadline: int, i: nat): (r: Result<HeaderEnd>)
    requires i <= |inp.window|
    ensures r.Ok? ==> i < r.value.next <= |inp.window| + 1
    decreases |inp.window| - i
  {
    match HeaderLine(inp, deadline, i)
    case Err(f) => Err(f)
    case Ok(step) =>
      if step.last then Ok(step.at)
      else Headers(inp, step.at.deadline, step.at.next)
  }

  /** The deadline the header scan from position i leaves behind, whether
      it ends the block or runs out of bytes: a step that fails changes
      nothing, so a failure keeps the deadline of the steps before it. */
  function HeadersDeadline(inp: Input, deadline: int, i: nat): (d: int)
    requires i <= |inp.window|
    ensures Headers(inp, deadline, i).Ok? ==> d == Headers(inp, deadline, i).value.deadline
    ensures Headers(inp, deadline, i).Err? ==> Headers(inp, deadline, i).fault == Exhausted(inp, d)
    decreases |inp.window| - i
  {
    match HeaderLine(inp, deadline, i)
    case Err(_) => deadline
    case Ok(step) =>
      if step.last then step.at.deadline
      else HeadersDeadline(inp, step.at.deadline, step.at.next)
  }

  /** A step that does not end the block hands the scan on to the next one. */
  lemma HeadersContinue(inp: Input, deadline: int, i: nat, at: HeaderEnd)
    requires i <= |inp.window| && HeaderLine(inp, deadline, i) == Ok(HeaderStep(at, false))
    ensures at.next <= |inp.window| && Headers(inp, deadline, i) == Headers(inp, at.deadline, at.next)
  {
  }

  /** A step that ends the block is where the scan ends. */
  lemma HeadersStop(inp: Input, deadline: int, i: nat, at: HeaderEnd)
    requires i <= |inp.window| && HeaderLine(inp, deadline, i) == Ok(HeaderStep(at, true))
    ensures Headers(inp, deadline, i) == Ok(at)
  {
  }

  /** A '\r' at the start of a line ends the block at once, two bytes on,
      whether or not its '\n' has arrived, and leaves the deadline alone. */
  lemma BlankLineEndsHeaders(inp: Input, deadline: int, i: nat)
    requires i < |inp.window| && inp.window[i] == '\r'
    ensures Headers(inp, deadline, i) == Ok(HeaderEnd(i + 2, deadline))
  {
    ScanStopsAt(inp.window, i, i, {':', '\r', '\n'});
  }

  /** A value followed by "\r\n" is read whole, and the line end skipped. */
  lemma ValueThenLineEnd(inp: Input, deadline: int, j: nat, value: seq<char>)
    requires '\r' !in value && '\n' !in value
    requires j + |value| + 2 <= |inp.window| && inp.window[j..j + |value| + 2] == value + "\r\n"
    ensures HeaderValue(inp, deadline, j) == Ok(Value(value, j + |value| + 2))
  {
    var w := inp.window;
    SplitAt(w, j, value, "\r\n");
    assert w[j + |value|] == w[j + |value|..j + |value| + 2][0] == '\r';
    ScanAcross(w, j, value, {'\r', '\n'});
  }

  /** A Connection field whose value ends in "\r\n" sets the deadline
      from the value and moves past the line. */
  lemma ConnectionField(inp: Input, deadline: int, j: nat, value: seq<char>)
    requires '\r' !in value && '\n' !in value
    requires j + |value| + 2 <= |inp.window| && inp.window[j..j + |value| + 2] == value + "\r\n"
    ensures HeaderField(inp, deadline, "Connection", j)
      == Ok(HeaderStep(HeaderEnd(j + |value| + 2, Kept(value, inp.now)), false))
  {
    ValueThenLineEnd(inp, deadline, j, value);
  }

  /** A key followed by ": " hands the step to its field. */
  lemma KeyThenField(inp: Input, deadline: int, i: nat, key: seq<char>, step: Result<HeaderStep>)
    requires ':' !in key && '\r' !in key && '\n' !in key
    requires i + |key| + 2 <= |inp.window| && inp.window[i..i + |key| + 2] == key + ": "
    requires HeaderField(inp, deadline, key, i + |key| + 2) == step
    ensures HeaderLine(inp, deadline, i) == step
  {
    var w := inp.window;
    SplitAt(w, i, key, ": ");
    assert w[i + |key|] == w[i + |key|..i + |key| + 2][0] == ':';
    ScanAcross(w, i, key, {':', '\r', '\n'});
  }

  /** Bytes free of ':', '\r' and '\n' followed by "\r\n" end the block
      after the line end, with the deadline untouched. */
  lemma LineEndStep(inp: Input, deadline: int, j: nat, rest: seq<char>)
    requires ':' !in rest && '\r' !in rest && '\n' !in rest
    requires j + |rest| + 2 <= |inp.window| && inp.window[j..j + |rest| + 2] == rest + "\r\n"
    ensures HeaderLine(inp, deadline, j) == Ok(HeaderStep(HeaderEnd(j + |rest| + 2, deadline), true))
  {
    var w := inp.window;
    SplitAt(w, j, rest, "\r\n");
    assert w[j + |rest|] == w[j + |rest|..j + |rest| + 2][0] == '\r';
    ScanAcross(w, j, rest, {':', '\r', '\n'});
  }

  /** A leading "Connection: <value>\r\n" line is one step that moves past
      the line and sets the deadline from the value. */
  lemma ConnectionStep(inp: Input, deadline: int, i: nat, value: seq<char>)
    requires '\r' !in value && '\n' !in value
    requires i + 12 <= |inp.window| && inp.window[i..i + 12] == "Connection: "
    requires i + |value| + 14 <= |inp.window| && inp.window[i + 12..i + |value| + 14] == value + "\r\n"
    ensures HeaderLine(inp, deadline, i) == Ok(HeaderStep(HeaderEnd(i + |value| + 14, Kept(value, inp.now)), false))
  {
    var step := Ok(HeaderStep(HeaderEnd(i + |value| + 14, Kept(value, inp.now)), false));
    ConnectionField(inp, deadline, i + 12, value);
    KeyThenField(inp, deadline, i, "Connection", step);
  }

  /** After a leading "Connection: <value>\r\n" line the scan goes on after
      the line with the deadline the value sets. */
  lemma ConnectionHeaderFirst(inp: Input, deadline: int, i: nat, value: seq<char>)
    requires '\r' !in value && '\n' !in value
    requires i + 12 <= |inp.window| && inp.window[i..i + 12] == "Connection: "
    requires i + |value| + 14 <= |inp.window| && inp.window[i + 12..i + |value| + 14] == value + "\r\n"
    ensures Headers(inp, deadline, i) == Headers(inp, Kept(value, inp.now), i + |value| + 14)
  {
    ConnectionStep(inp, deadline, i, value);
    HeadersContinue(inp, deadline, i, HeaderEnd(i + |value| + 14, Kept(value, inp.now)));
  }

  /** A first header line "<name>: <value>\r\n" with any other name ends
      the block right after that line, with the deadline untouched: the
      value is not skipped, so the next step scans it as a key and stops
      at its line end. Nothing after the line, a later "Connection" line
      included, is examined. */
  lemma OtherHeaderEndsBlock(inp: Input, deadline: int, i: nat, name: seq<char>, value: seq<char>)
    requires name != "Connection"
    requires ':' !in name && '\r' !in name && '\n' !in name
    requires ':' !in value && '\r' !in value && '\n' !in value
    requires i + |name| + 2 <= |inp.window| && inp.window[i..i + |name| + 2] == name + ": "
    requires var j := i + |name| + 2;
      j + |value| + 2 <= |inp.window| && inp.window[j..j + |value| + 2] == value + "\r\n"
    ensures Headers(inp, deadline, i) == Ok(HeaderEnd(i + |name| + |value| + 4, deadline))
  {
    var j := i + |name| + 2;
    KeyThenField(inp, deadline, i, name, Ok(HeaderStep(HeaderEnd(j, deadline), false)));
    HeadersContinue(inp, deadline, i, HeaderEnd(j, deadline));
    LineEndStep(inp, deadline, j, value);
    HeadersStop(inp, deadline, j, HeaderEnd(j + |value| + 2, deadline));
  }

  /** The value of a header other than Connection is not skipped: the
      scan resumes right after "<name>: " and reads the value as the next
      key, so a value such as "Connection: close" is taken for a
      Connection header of its own. */
  lemma OtherHeaderValueRescanned(inp: Input, deadline: int, i: nat, name: seq<char>)
    requires name != "Connection"
    requires ':' !in name && '\r' !in name && '\n' !in name
    requires i + |name| + 2 <= |inp.window| && inp.window[i..i + |name| + 2] == name + ": "
    ensures Headers(inp, deadline, i) == Headers(inp, deadline, i + |name| + 2)
  {
    var j := i + |name| + 2;
    KeyThenField(inp, deadline, i, name, Ok(HeaderStep(HeaderEnd(j, deadline), false)));
    HeadersContinue(inp, deadline, i, HeaderEnd(j, deadline));
  }

  /** The broken-down UTC time of the Date header (C library field
      conventions: tm_wday 0 is Sunday, tm_mon 0 is January, tm_year counts
      from 1900). */
  datatype UtcTime = UtcTime(wday: int, mday: int, mon: int, year: int, hour: int, min: int, sec: int)
  {
    predicate Valid()
    {
      0 <= wday < 7 && 1 <= mday <= 31 && 0 <= mon < 12
      && 0 <= hour < 24 && 0 <= min < 60 && 0 <= sec <= 60
    }
  }

  /** The status line: the code's decimal text, which a client reads back
      as the code, between "HTTP/1.1 " and " \r\n". */
  function StatusLine(code: int): (s: seq<char>)
    ensures 13 <= |s| && s[..9] == "HTTP/1.1 " && s[|s| - 3..] == " \r\n"
    ensures var d := s[9..|s| - 3];
      ((d[0] == '-' && AllDigits(d[1..])) || AllDigits(d)) && ParseInt(d) == code
  {
    var s := "HTTP/1.1 " + IntText(code) + " \r\n";
    assert s[9..|s| - 3] == IntText(code);
    IntTextRoundTrip(code);
    s
  }

  /** The Server line: the version between "Server: HTPP/" and "\r\n". */
  function ServerLine(version: seq<char>): (s: seq<char>)
    ensures |s| == |version| + 15 && s[..13] == "Server: HTPP/" && s[|s| - 2..] == "\r\n"
    ensures s[13..|s| - 2] == version
  {
    "Server: HTPP/" + version + "\r\n"
  }

  /** The Date line before the year: "Date: ", the weekday, ", ", the day
      as two digits, the month and a space. */
  function DateHead(t: UtcTime): (h: seq<char>)
    requires t.Valid()
    ensures |h| == 18 && h[..6] == "Date: " && h[6..9] == Weekday(t.wday) && h[9..11] == ", "
      && AllDigits(h[11..13]) && Decimal.Value(h[11..13]) == t.mday
      && h[13] == ' ' && h[14..17] == Month(t.mon) && h[17] == ' '
  {
    Fmt2IntTwoDigits(t.mday);
    var h := "Date: " + Weekday(t.wday) + ", " + Fmt2Int(t.mday) + " " + Month(t.mon) + " ";
    assert h[11..13] == Fmt2Int(t.mday);
    h
  }

  /** The Date line after the year: hour, minute and second as two digits
      each, separated by ':', then " GMT" and the line end. */
  function DateTail(t: UtcTime): (e: seq<char>)
    requires t.Valid()
    ensures |e| == 15 && e[0] == ' '
      && AllDigits(e[1..3]) && Decimal.Value(e[1..3]) == t.hour && e[3] == ':'
      && AllDigits(e[4..6]) && Decimal.Value(e[4..6]) == t.min && e[6] == ':'
      && AllDigits(e[7..9]) && Decimal.Value(e[7..9]) == t.sec && e[9..] == " GMT\r\n"
  {
    Fmt2IntTwoDigits(t.hour);
    Fmt2IntTwoDigits(t.min);
    Fmt2IntTwoDigits(t.sec);
    var e := " " + Fmt2Int(t.hour) + ":" + Fmt2Int(t.min) + ":" + Fmt2Int(t.sec) + " GMT\r\n";
    assert e[1..3] == Fmt2Int(t.hour) && e[4..6] == Fmt2Int(t.min) && e[7..9] == Fmt2Int(t.sec);
    e
  }

  /** The Date line in the IMF-fixdate layout: weekday, two-digit day,
      month, year, two-digit hour, minute and second, "GMT". */
  function DateLine(t: UtcTime): (s: seq<char>)
    requires t.Valid()
    ensures |s| == 33 + |IntText(t.year + 1900)|
    ensures s[..6] == "Date: " && s[|s| - 6..] == " GMT\r\n"
  {
    var head, tail := DateHead(t), DateTail(t);
    var s := head + IntText(t.year + 1900) + tail;
    assert s[..6] == head[..6] && s[|s| - 6..] == tail[9..];
    s
  }

  /** A slice inside the first of three concatenated pieces is that
      slice of the piece. */
  lemma SliceOfFirst(a: seq<char>, b: seq<char>, c: seq<char>, i: nat, j: nat)
    requires i <= j <= |a|
    ensures (a + b + c)[i..j] == a[i..j]
  {
  }

  /** A slice inside the last of three concatenated pieces is that slice
      of the piece. */
  lemma SliceOfLast(a: seq<char>, b: seq<char>, c: seq<char>, i: nat, j: nat)
    requires i <= j <= |c|
    ensures (a + b + c)[|a| + |b| + i..|a| + |b| + j] == c[i..j]
  {
  }

  /** The fields of the Date line sit at fixed offsets after the year:
      weekday, ", ", the day as two digits, month, the year's text, and
      hour, minute and second as two digits each, separated by ':'. */
  lemma DateLineLayout(t: UtcTime)
    requires t.Valid()
    ensures var s := DateLine(t); var y := |IntText(t.year + 1900)|;
      s[6..9] == Weekday(t.wday) && s[9..11] == ", "
      && AllDigits(s[11..13]) && Decimal.Value(s[11..13]) == t.mday
      && s[13] == ' ' && s[14..17] == Month(t.mon) && s[17] == ' '
      && s[18..18 + y] == IntText(t.year + 1900) && s[18 + y] == ' '
      && AllDigits(s[19 + y..21 + y]) && Decimal.Value(s[19 + y..21 + y]) == t.hour && s[21 + y] == ':'
      && AllDigits(s[22 + y..24 + y]) && Decimal.Value(s[22 + y..24 + y]) == t.min && s[24 + y] == ':'
      && AllDigits(s[25 + y..27 + y]) && Decimal.Value(s[25 + y..27 + y]) == t.sec
      && s[27 + y..] == " GMT\r\n"
  {
    var head, year, tail := DateHead(t), IntText(t.year + 1900), DateTail(t);
    var y := |year|;
    assert DateLine(t) == head + year + tail;
    SliceOfFirst(head, year, tail, 6, 9);
    SliceOfFirst(head, year, tail, 9, 11);
    SliceOfFirst(head, year, tail, 11, 13);
    SliceOfFirst(head, year, tail, 14, 17);
    SliceOfFirst(head, year, tail, 13, 14);
    SliceOfFirst(head, year, tail, 17, 18);
    SliceOfLast(head, year, tail, 0, 0);
    SliceOfLast(head, year, tail, 0, 1);
    SliceOfLast(head, year, tail, 1, 3);
    SliceOfLast(head, year, tail, 3, 4);
    SliceOfLast(head, year, tail, 4, 6);
    SliceOfLast(head, year, tail, 6, 7);
    SliceOfLast(head, year, tail, 7, 9);
    SliceOfLast(head, year, tail, 9, 15);
    assert (head + year + tail)[18..18 + y] == year;
  }

  /** With a four-digit year the Date line is the fixed 37 bytes of an
      IMF-fixdate header line. */
  lemma DateLineLength(t: UtcTime)
    requires t.Valid() && 1000 <= t.year + 1900 < 10000
    ensures |DateLine(t)| == 37
  {
    var year := t.year + 1900;
    FourDigits(year);
    assert |IntText(year)| == 4;
  }

  /** Keep-alive lines while the deadline is below the sentinel, otherwise close. */
  function ConnectionLines(deadline: int): (s: seq<char>)
    ensures 19 <= |s| && s[..12] == "Connection: " && s[|s| - 2..] == "\r\n"
    ensures s == "Connection: close\r\n" <==> deadline >= TimeMax
  {
    if deadline < TimeMax then
      "Connection: keep-alive\r\n" + "Keep-Alive: timeout=" + IntText(KeepaliveTimeout) + ", max=1000\r\n"
    else "Connection: close\r\n"
  }

  /** The Content-Type line of a body. */
  function TypeLine(t: ContentType): (s: seq<char>)
    ensures 16 <= |s| && s[..14] == "Content-Type: " && s[|s| - 2..] == "\r\n"
    ensures s[14..|s| - 2] == ContentTypes.MimeName(t)
  {
    "Content-Type: " + ContentTypes.MimeName(t) + "\r\n"
  }

  /** The Content-Length line of a body of n bytes, with the blank line. */
  function LengthLine(n: nat): (s: seq<char>)
    ensures 21 <= |s| && s[..16] == "Content-Length: " && s[|s| - 4..] == "\r\n\r\n"
    ensures AllDigits(s[16..|s| - 4]) && Decimal.Value(s[16..|s| - 4]) == n
  {
    var s := "Content-Length: " + NatText(n) + "\r\n\r\n";
    assert s[16..|s| - 4] == NatText(n);
    s
  }

  /** Content-Type, Content-Length, the blank line and the body; or just the
      blank line when there is no content. */
  function ContentBlock(content: Option<Content>): (s: seq<char>)
    ensures content.None? ==> s == "\r\n"
    ensures content.Some? ==> StartsWith(s, "Content-Type: ") && EndsWith(s, content.value.data)
  {
    match content
    case None => "\r\n"
    case Some(c) => TypeLine(c.contentType) + LengthLine(|c.data|) + c.data
  }

  /** The bytes the engine writes for one response. */
  function ResponseText(response: Response, deadline: int, date: UtcTime, version: seq<char>): (s: seq<char>)
    requires date.Valid()
    ensures StartsWith(s, StatusLine(response.code)) && EndsWith(s, ContentBlock(response.content))
  {
    var status, block := StatusLine(response.code), ContentBlock(response.content);
    var server, dateLine, connection := ServerLine(version), DateLine(date), ConnectionLines(deadline);
    FirstAndLast(status, server, dateLine, connection, block);
    status + server + dateLine + connection + block
  }

  /** A concatenation of five pieces starts with the first and ends with
      the last. */
  lemma FirstAndLast(a: seq<char>, b: seq<char>, c: seq<char>, d: seq<char>, e: seq<char>)
    ensures StartsWith(a + b + c + d + e, a) && EndsWith(a + b + c + d + e, e)
  {
    var s := a + b + c + d + e;
    assert s == a + (b + c + d + e);
    assert s[..|a|] == a;
    assert s[|s| - |e|..] == e;
  }

  /** `text` starts with `prefix`. */
  predicate StartsWith(text: seq<char>, prefix: seq<char>)
  {
    |prefix| <= |text| && text[..|prefix|] == prefix
  }

  /** Appending keeps a prefix. */
  lemma StartsWithAppend(text: seq<char>, prefix: seq<char>, more: seq<char>)
    requires StartsWith(text, prefix)
    ensures StartsWith(text + more, prefix)
  {
    assert (text + more)[..|prefix|] == text[..|prefix|];
  }

  /** Appending one piece after another is appending both at once. */
  lemma AppendTwice(a: seq<char>, b: seq<char>, c: seq<char>)
    ensures a + b + c == a + (b + c)
  {
  }

  /** `text` ends with `suffix`. */
  predicate EndsWith(text: seq<char>, suffix: seq<char>)
  {
    |suffix| <= |text| && text[|text| - |suffix|..] == suffix
  }

  /** `text` ends with a Content-Length field whose digits denote `length`,
      the blank line, and then exactly `body`: a client that trusts the
      field reads `length` bytes after the blank line. */
  ghost predicate FramedBody(text: seq<char>, body: seq<char>, length: int)
  {
    exists digits :: AllDigits(digits) && |digits| >= 1 && Decimal.Value(digits) == length
      && EndsWith(text, "Content-Length: " + digits + "\r\n\r\n" + body)
  }

  /** A length printed in decimal frames the body that follows it. */
  lemma FramedByNatText(head: seq<char>, body: seq<char>, length: nat)
    ensures FramedBody(head + LengthLine(length) + body, body, length)
  {
    var digits := NatText(length);
    var tail := "Content-Length: " + digits + "\r\n\r\n" + body;
    var text := head + LengthLine(length) + body;
    assert text == head + tail;
    assert text[|text| - |tail|..] == tail;
  }

  /** A framed ending stays framed after any header text is put in front. */
  lemma FramedAfter(head: seq<char>, block: seq<char>, body: seq<char>, length: int)
    requires FramedBody(block, body, length)
    ensures FramedBody(head + block, body, length)
  {
    var digits :| AllDigits(digits) && |digits| >= 1 && Decimal.Value(digits) == length
      && EndsWith(block, "Content-Length: " + digits + "\r\n\r\n" + body);
    var tail := "Content-Length: " + digits + "\r\n\r\n" + body;
    assert (head + block)[|head + block| - |tail|..] == block[|block| - |tail|..];
  }

  /** The connection lines depend on the deadline alone: keep-alive with a
      30-second timeout below the sentinel, close at it. */
  lemma KeepAliveUnlessSentinel(deadline: int)
    ensures deadline < TimeMax ==>
      ConnectionLines(deadline) == "Connection: keep-alive\r\n" + "Keep-Alive: timeout=" + "30" + ", max=1000\r\n"
    ensures deadline >= TimeMax ==> ConnectionLines(deadline) == "Connection: close\r\n"
  {
    assert NatText(3) == ['3'];
    assert IntText(KeepaliveTimeout) == NatText(3) + ['0'] == "30";
  }

  /** A response starts with "HTTP/1.1 ", then the code in decimal, which a
      client reads back, then " \r\n". */
  lemma StatusLineCarriesCode(code: int)
    ensures var line := StatusLine(code); var digits := IntText(code);
      line == "HTTP/1.1 " + digits + " \r\n"
      && ((digits[0] == '-' && AllDigits(digits[1..])) || AllDigits(digits)) && ParseInt(digits) == code
  {
    IntTextRoundTrip(code);
  }

  /** A content block ends with a Content-Length equal to the body size,
      the blank line and the body. */
  lemma ContentBlockFramed(c: Content)
    ensures var block := ContentBlock(Some(c));
      FramedBody(block, c.data, |c.data|)
  {
    FramedByNatText(TypeLine(c.contentType), c.data, |c.data|);
  }

  /** With content, the response ends with a Content-Length equal to the
      body size, the blank line and the body, after the status, server,
      date and connection lines; without content those lines are closed by
      a lone "\r\n". */
  lemma ResponseFramesBody(response: Response, deadline: int, date: UtcTime, version: seq<char>)
    requires date.Valid()
    ensures var text := ResponseText(response, deadline, date, version);
      var head := StatusLine(response.code) + ServerLine(version) + DateLine(date) + ConnectionLines(deadline);
      (response.content.None? ==> text == head + "\r\n")
      && (response.content.Some? ==> FramedBody(text, response.content.value.data, |response.content.value.data|))
  {
    if response.content.Some? {
      var head := StatusLine(response.code) + ServerLine(version) + DateLine(date) + ConnectionLines(deadline);
      var c := response.content.value;
      ContentBlockFramed(c);
      FramedAfter(head, ContentBlock(Some(c)), c.data, |c.data|);
    }
  }
}
