# htpp wire engine, modelled in Dafny

This project models the core of htpp, a small C++ HTTP/1.1 server. The model covers these parts.

- **The per-connection engine (`HttpProtocol`).** It is the class `Protocol.HttpProtocol`. A fixed arena (`buf`) holds what has been read. A cursor `it` and a fill end `end` move over it, `bytesLeft` is the free room, and `deadline` is the keep-alive deadline. Its methods are `SetBuffer`, `Receive`, the waiting loops `WaitForCount`/`FindFirstOf`/`Find`, the request-line parser, the header scanner and `WriteResponse`. The transport (`Protocol.Transport`) holds the chunks a client has delivered, whether it is open, and the bytes written to it.
- **The stream-level specification (module `Wire`).** It describes what the engine computes over the whole byte stream a client sends. Every reading method is proved to return what the matching `Wire` function computes. The parse result and the final cursor therefore do not depend on how the transport cut the stream into reads. `Wire` also states the request-line grammar, the header scanner, and the exact response text.
- **The method classifier and date helpers (module `Utilities`).** These are `get_type`, `weekday`, `month`, the local `to_str` and `Fmt2Int`. Decimal printing of integers, with a reader as its inverse, is in module `Decimal`.
- **The value types of `http.h` (module `Http`), and the extension table with its MIME names (module `ContentTypes`).**
- **The newer serialiser `Context::send` (module `Responses`).** It is a class with a response buffer and two hooks.
- **Route registration and dispatch (module `Routing`).** This covers `set_routes`, `static_files` and `fire_handler`, plus one connection cycle of the server loop: a fresh arena, read one request and its headers, answer it or send 500, and continue while the deadline lies ahead.
- **The JSON encoder for records and ranges (module `Json`).** The stringstream is a `Sink` object. A decoder is the encoder's partner: every value without '"' in its strings decodes back from its encoding.

`src/connection.cpp` (`HttpConnection`) is an older copy of the same engine over a raw socket. Its reader, parser, header scanner and renderer are line for line those of `src/connection.h`. The same members model both, and a few rows below cite the older copy.

Time, the calendar fields of the Date header, the server version string and the file system are parameters of the model.

The engine, the server cycle and the dispatch follow the source as written, with one exception. In the header scanner, the steps over a key's ": " and over a value's line end (`src/connection.h:109` and `:119`) wait for their bytes before stepping, and the model uses that corrected form. Three defects are recorded under Findings. For each, the as-written behaviour is stated by its own member. The query parse and the static-file dispatch also have corrected definitions, which sit beside the as-written ones and which nothing else in the model uses. Each corrected member is labelled "corrected" in its row below.

## Model

| member | source | states |
|---|---|---|
| Http.HtmlContent | src/include/htpp/http.h:99 | content built from text alone is typed text/html and holds exactly that text |
| Http.CodeResponse | src/include/htpp/http.h:105 | a response built from a code carries that code and no content |
| Http.ContentResponse | src/include/htpp/http.h:103-106 | a response built from content carries code 200 and exactly that content |
| Http.OrdinalInjective | src/include/htpp/http.h:8-18 | the request methods have distinct underlying values, which the endpoint hash adds |
| Http.MethodName | src/include/htpp/http.h:116-131 | every method is named by its own keyword, except PATCH, which is named "OTHER" |
| Http.Keyword | src/include/htpp/http.h:116-131 | each method's keyword is 3 to 7 upper-case letters |
| Http.Ordinal | src/include/htpp/http.h:8-18 | a method's underlying value is below 9 |
| Http.MethodNameInjective | src/include/htpp/http.h:116-131 | distinct methods get distinct names, so "OTHER" collides with no other method |
| Http.LexTrichotomy | src/include/htpp/http.h:136 | any two addresses are equal or ordered one way, never both ways and never ordered while equal |
| Http.EndpointTrichotomy | src/include/htpp/http.h:133-137 | the defaulted comparison on (method, address) is a strict total order: irreflexive, asymmetric and total |
| Http.EndpointHash | src/include/htpp/http.h:140-147 | the endpoint hash is a size_t value, below 2^64 |
| Http.EndpointHashSeparatesMethods | src/include/htpp/http.h:145 | for one address (whose hash is below 2^64), two endpoints hash equally if and only if they have the same method |
| ContentTypes.FromFileExtension | src/contenttype.cpp:91-97 | a registered extension gives its registered type; any other text gives application/octet-stream |
| ContentTypes.Lookup | src/contenttype.cpp:10-84 | every registered key is a dot followed by at least one character |
| ContentTypes.MimeNamesNonEmpty | src/contenttype.cpp:99-173 | every media type has a MIME name, and no name is empty |
| ContentTypes.UndottedIsOctetStream | src/contenttype.cpp:91-97 | text that does not start with a dot is never registered and is announced as "application/octet-stream" |
| ContentTypes.ExactCaseSensitiveLookup | src/contenttype.cpp:92 | the lookup is exact and case-sensitive: ".html" is HTML, while "html" and ".HTML" are octet-stream |
| ContentTypes.HtmlAliases | src/contenttype.cpp:29-30 | ".htm" and ".html" are both text/html |
| ContentTypes.JpegAliases | src/contenttype.cpp:34-35 | ".jpg" and ".jpeg" are both image/jpeg |
| ContentTypes.JavascriptAliases | src/contenttype.cpp:39-81 | ".mjs" and ".js" are both text/javascript |
| ContentTypes.TableOddities | src/contenttype.cpp:122 | the calendar type's name starts with a tab, and ".ttf" is announced as "application/vnd.visio" |
| Decimal.DigitChar | src/connection.h:137 | each digit value prints as the decimal digit of that value |
| Decimal.NatText | src/connection.h:150 | a size prints as decimal digits whose value is the size, with no leading zero |
| Decimal.IntText | src/connection.h:137 | an int prints as the digits of its magnitude, preceded by '-' when negative |
| Decimal.NatTextLength | src/connection.h:139 | a number from 10^(k-1) up to 10^k prints as exactly k digits |
| Decimal.FourDigits | src/connection.h:139 | a year from 1000 to 9999 prints as four digits |
| Decimal.IntTextRoundTrip | src/connection.h:137 | the printed text of any int reads back as that int |
| Decimal.IntTextSign | src/include/htpp/json.h:51-52 | an int's text starts with '-' if and only if the int is negative |
| Utilities.GetType | src/utilites.h:4-45 | a classified method advances the cursor by its keyword length plus one, at most 8; the keyword starts with the first byte, and also the second byte when the first is 'P'; anything else throws a bad-request-type error |
| Utilities.GetTypeRecognisesKeyword | src/utilites.h:4-45 | each method's own keyword is classified as that method, with an advance of keyword length plus one (GET/PUT 4, HEAD/POST 5, PATCH/TRACE 6, DELETE 7, CONNECT/OPTIONS 8) |
| Utilities.GetTypeIgnoresSecondByte | src/utilites.h:6-40 | the second byte matters only after 'P' |
| Utilities.GetTypeRejects | src/utilites.h:14-42 | classification fails if and only if the first byte is none of G, H, P, D, C, O, T, or it is 'P' followed by a byte other than O, U, A |
| Utilities.GetTypeTrustsFirstByte | src/utilites.h:8-10 | later bytes are not checked: "GX" is GET with an advance of 4 |
| Utilities.Weekday | src/utilites.h:47-59 | every day index 0..6 gives a three-letter name |
| Utilities.WeekdayNamesNextDay | src/utilites.h:47-59 | index d gives the IMF name of the day after d, counted from Sunday, so 0 is "Mon" |
| Utilities.Month | src/utilites.h:61-78 | every month index 0..11 gives a three-letter name |
| Utilities.MonthInjective | src/utilites.h:61-78 | distinct months get distinct names |
| Utilities.LocalMimeName | src/utilites.h:80-87 | the local name table is defined only for text/html and application/json, and agrees with the full table there |
| Utilities.Fmt2IntTwoDigits | src/utilites.h:89-101 | for 0 <= v < 100 the output is exactly two decimal digits whose value is v |
| Utilities.Fmt2Int | src/utilites.h:89-101 | every v >= 0 prints as at least two digits whose value is v |
| Utilities.Fmt2IntOutsideRange | src/utilites.h:93-99 | outside its precondition the format is not two digits: -5 prints "0-5" and 100 prints three characters |
| Wire.IdleFault | src/connection.h:54-61 | with nothing to read, the wait throws at once when the deadline has passed or the transport is closed; otherwise it polls until a finite deadline passes, and forever under the close sentinel |
| Wire.InputOf | src/connection.h:62-64 | the window an arena can see is the longest prefix of the stream that fits its capacity; overflow means the client sent more |
| Wire.Scan | src/connection.h:73 | a scan stops at the first byte of the set at or after its start, or at the end |
| Wire.ScanSkips | src/connection.h:72-75 | no byte a scan passes over is in the set |
| Wire.ScanStopsAt | src/connection.h:72-75 | the first matching position after the start is the one a scan finds |
| Wire.ScanPrefix | src/connection.h:72-75 | a scan over the bytes buffered so far agrees with the scan over the whole window when it finds a match; otherwise the window scan continues from the buffered end |
| Wire.RequestLine | src/connection.h:82-103 | a parsed request line spans at least the 8 awaited bytes and lies within the window |
| Wire.RequestTarget | src/connection.h:86-100 | as written, a parsed target has an empty query and the given method, spans at least " HTTP/1.1\r\n" and lies within the window; after a '?' the version check starts right after it |
| Wire.RequestQuery | src/connection.h:90-94 | corrected (see Findings): the awaited query runs to the next ' ', holds no ' ', keeps the path, and the version check follows it |
| Wire.RequestTargetIntended | src/connection.h:86-100 | corrected (see Findings): the intended target, with the query after '?' read up to the next ' ', spans at least " HTTP/1.1\r\n" within the window |
| Wire.RequestVersion | src/connection.h:96-100 | the version check succeeds only on " HTTP/1.1\r\n", and steps over exactly those bytes |
| Wire.LineFromTarget | src/connection.h:83-87 | after classification, the line is the target parsed from the classifier's advance |
| Wire.MethodThenTarget | src/connection.h:83-86 | a classified keyword and a space are followed by the target |
| Wire.KeywordThenTarget | src/connection.h:83-86 | a method's keyword and a space are followed by the target |
| Wire.TargetThenVersion | src/connection.h:86-98 | a path ended by ' ' has an empty query, and the version check follows the path |
| Wire.VersionAt | src/connection.h:96-100 | " HTTP/1.1\r\n" at the cursor gives the request, and the cursor ends past it |
| Wire.VersionMismatch | src/connection.h:98-99 | any other 11 bytes throw "Wrong HTTP version" |
| Wire.PlainTarget | src/connection.h:86-102 | a path without '?' followed by " HTTP/1.1\r\n" gives that path, an empty query, and a cursor just past "\r\n" |
| Wire.QueryTarget | src/connection.h:90-94 | corrected (see Findings): a path, '?', a query without ' ' and " HTTP/1.1\r\n" give that path with that query |
| Wire.QueryAfterPath | src/connection.h:88-92 | corrected (see Findings): a path free of '?' and ' ' followed by '?' hands over to the query read right after the '?' |
| Wire.QueryThenVersion | src/connection.h:92-100 | corrected (see Findings): a query without ' ' followed by " HTTP/1.1\r\n" gives the request with that query, and the line ends after the version |
| Wire.QueryTargetAsWritten | src/connection.h:90-99 | as written, after "<path>?" any byte but ' ' throws "Wrong HTTP version", since the version check starts right after the '?' |
| Wire.EmptyQueryTarget | src/connection.h:90-100 | as written, "<path>? HTTP/1.1\r\n" is accepted as that path with an empty query |
| Wire.QueryRequestRejected | src/connection.h:82-99 | as written, every request line whose query is non-empty and does not start with ' ' throws "Wrong HTTP version" |
| Wire.WellFormedRequestLine | src/connection.h:82-103 | "<METHOD> <path> HTTP/1.1\r\n" with no '?' gives that method, that path, an empty query, and a cursor just past "\r\n" |
| Wire.UnknownMethodRejected | src/utilites.h:41-42 | an unrecognised first byte rejects the request line as a bad request type |
| Wire.HeaderValue | src/connection.h:105-111 | a header value is the bytes before the first '\r' or '\n', and the cursor moves past the line end |
| Wire.HeaderLine | src/connection.h:115-131 | one step of the header loop: a keyed step stays within the window; the step that ends the block steps over the line end without waiting, so it may end one byte past the window, and keeps the deadline; a failure is an exhausted wait at the deadline it started with |
| Wire.HeaderLineAt | src/connection.h:116-130 | after the key's end: a ':' steps over two bytes to the field, or is an exhausted wait when they are not in the window; '\r' (two bytes) or '\n' (one) ends the block at once |
| Wire.HeaderField | src/connection.h:119-127 | a keyed line never ends the block and stays within the window; a failure is an exhausted wait at the deadline it started with |
| Wire.Headers | src/connection.h:113-133 | the header block ends after at least one byte, and at most one byte past the window, since the final skip is not awaited |
| Wire.HeadersDeadline | src/connection.h:113-133 | the deadline the header loop leaves: what the block's end holds when it ends, and otherwise the deadline of the steps before the one that failed, whose fault is the exhausted wait at that deadline |
| Wire.HeadersContinue | src/connection.h:114-132 | a step that does not end the block continues the loop from its cursor and deadline |
| Wire.HeadersStop | src/connection.h:128-130 | a step that ends the block ends the loop |
| Wire.BlankLineEndsHeaders | src/connection.h:128-130 | a '\r' at the start of a line ends the block two bytes on, even when its '\n' has not arrived, and the deadline is unchanged |
| Wire.ValueThenLineEnd | src/connection.h:105-111 | a value followed by "\r\n" is read exactly, and the cursor lands after the "\r\n" |
| Wire.ConnectionField | src/connection.h:120-126 | a Connection value sets the deadline: the sentinel for "close", and now + 30 for any other value |
| Wire.KeyThenField | src/connection.h:115-119 | a key and ": " are followed by the field after them |
| Wire.LineEndStep | src/connection.h:128-130 | a line without ':' ends the block at its line end |
| Wire.ConnectionStep | src/connection.h:118-126 | a "Connection: <value>\r\n" line sets the deadline from the value and does not end the block |
| Wire.ConnectionHeaderFirst | src/connection.cpp:72-92 | a leading Connection header is honoured, and the scan continues after it |
| Wire.OtherHeaderEndsBlock | src/connection.h:113-132 | a first header other than Connection whose value holds no ':' ends the block at that value's line end, with the deadline unchanged, since the value is scanned as a key; a later Connection header is never examined |
| Wire.OtherHeaderValueRescanned | src/connection.h:116-127 | the value of a header other than Connection is not skipped: the scan resumes right after "<name>: ", so a value such as "Connection: close" is read as a Connection header |
| Wire.KeepAliveUnlessSentinel | src/connection.h:142-147 | a deadline below the sentinel gives keep-alive with "timeout=30, max=1000"; the sentinel gives "Connection: close" |
| Wire.StatusLineCarriesCode | src/connection.h:137 | the status line is "HTTP/1.1 <code> \r\n", and its digits read back as the code |
| Wire.ContentBlockFramed | src/connection.h:148-151 | with content, Content-Length is the body's size and the body follows the blank line |
| Wire.ResponseFramesBody | src/connection.h:135-158 | a response without content ends its header block with one extra "\r\n"; with content, its body is framed by its length |
| Wire.StatusLine | src/connection.h:137 | the status line is the code's decimal text between "HTTP/1.1 " and " \r\n", and that text reads back as the code |
| Wire.ServerLine | src/connection.h:138 | the Server line is the version between "Server: HTPP/" and "\r\n" |
| Wire.DateLine | src/connection.h:139-141 | the Date line starts with "Date: ", ends with " GMT\r\n", and is 33 bytes plus the year's text |
| Wire.DateHead | src/connection.h:141 | the 18 bytes before the year: "Date: ", the weekday, ", ", two digits denoting the day, a space, the month and a space |
| Wire.DateTail | src/connection.h:141 | the 15 bytes after the year: a space, then hour, minute and second as two digits each denoting the field, separated by ':', then " GMT\r\n" |
| Wire.DateLineLayout | src/connection.h:139-141 | each field of the Date line sits at its fixed offset: weekday at 6, day at 11, month at 14, the year from 18, then hour, minute and second, each two-digit field denoting its value |
| Wire.DateLineLength | src/connection.h:139-141 | with a four-digit year the Date line is 37 bytes long |
| Wire.ConnectionLines | src/connection.h:142-147 | the connection lines start with "Connection: " and end with "\r\n"; they are "Connection: close\r\n" if and only if the deadline is the sentinel |
| Wire.TypeLine | src/connection.h:149 | the Content-Type line is the table's name for the type between "Content-Type: " and "\r\n" |
| Wire.LengthLine | src/connection.h:150 | the Content-Length line is digits whose value is the length, between "Content-Length: " and the blank line |
| Wire.ContentBlock | src/connection.h:148-154 | without content the block is one "\r\n"; with content it starts with the Content-Type line and ends with the body |
| Wire.ResponseText | src/connection.h:135-157 | a response starts with its status line and ends with its content block |
| Protocol.Transport.constructor | src/connection.h:14-23 | a transport starts with the given deliveries, open flag and nothing written |
| Protocol.Transport.Receive | src/connection.h:62 | a read takes at most the free room from the first delivery, losing and reordering nothing |
| Protocol.Transport.Available | src/connection.h:54 | the number of bytes a read can return is zero exactly when nothing is pending |
| Protocol.Transport.Write | src/connection.h:157 | a write appends the whole text |
| Protocol.HttpProtocol.constructor | src/connection.h:34-36 | a connection's deadline starts 30 seconds after it is accepted |
| Protocol.HttpProtocol.SetBuffer | src/connection.h:42-47 | the cursor and fill end start at the arena's start, and the free room is the whole capacity |
| Protocol.HttpProtocol.Receive | src/connection.h:53-65 | a successful read advances the fill end by the count read and lowers the free room by as much, keeping the buffered bytes equal to the stream; with nothing pending it fails as IdleFault says |
| Protocol.HttpProtocol.ReceiveMore | src/connection.h:68-69 | each step of a waiting loop adds bytes, or the window is used up |
| Protocol.HttpProtocol.WaitForCount | src/connection.h:67-70 | after the wait, at least n bytes lie between the cursor and the fill end, unless the window holds fewer |
| Protocol.HttpProtocol.ScanFrom | src/connection.h:73 | a scan of the buffered bytes agrees with the scan of the whole window |
| Protocol.HttpProtocol.FindFirstOf | src/connection.h:72-75 | the cursor stops at the first byte of the set in the stream, before the fill end; it fails only when the window holds none |
| Protocol.HttpProtocol.Find | src/connection.h:77-80 | the cursor stops at the first occurrence of the byte in the stream |
| Protocol.HttpProtocol.Advance | src/connection.h:100 | stepping over buffered bytes keeps the cursor within the fill end |
| Protocol.HttpProtocol.SkipBuffered | src/connection.h:109-119 | corrected (see Findings): stepping over bytes waits for them first, so the cursor never passes the fill end |
| Protocol.HttpProtocol.ParseRequest | src/connection.h:82-103 | the request and the final cursor are those RequestLine gives for the whole stream, however it arrived, with the query parse as written |
| Protocol.HttpProtocol.ParseMethod | src/connection.h:83-84 | classification over the 8 awaited bytes agrees with RequestLine |
| Protocol.HttpProtocol.ParseTarget | src/connection.h:86-100 | the target read agrees with RequestTarget, as written |
| Protocol.HttpProtocol.SplitTarget | src/connection.h:88-100 | the branch on '?' or ' ' agrees with RequestTarget: after a '?' the query is empty and the version check starts right after it |
| Protocol.HttpProtocol.ReadQuery | src/connection.h:90-94 | corrected (see Findings): the awaited query read agrees with RequestQuery; the engine does not call it |
| Protocol.HttpProtocol.CheckVersion | src/connection.h:96-100 | the version check agrees with RequestVersion |
| Protocol.HttpProtocol.ReceiveHeaderValue | src/connection.h:105-111 | the value and the cursor are those HeaderValue gives |
| Protocol.HttpProtocol.ReceiveHeader | src/connection.h:115-131 | one pass of the header loop agrees with HeaderLine, including the deadline; a failed pass keeps the deadline, and only the pass that ends the block may leave the cursor one past the fill end |
| Protocol.HttpProtocol.HeaderAfterKey | src/connection.h:117-131 | the branch after the key's end agrees with HeaderLine; the final line end is stepped over without waiting |
| Protocol.HttpProtocol.ReceiveKeyed | src/connection.h:118-121 | stepping over ": " and reading the field agrees with HeaderField; a failure keeps the deadline |
| Protocol.HttpProtocol.ReceiveField | src/connection.h:120-127 | the field read and the deadline agree with HeaderField; a failure keeps the deadline |
| Protocol.HttpProtocol.ReceiveHeaders | src/connection.h:113-133 | the header loop ends where Headers says, with the deadline Headers computes; whether it ends or fails, the deadline is the one HeadersDeadline gives |
| Protocol.HttpProtocol.WriteResponse | src/connection.h:135-158 | the transport receives exactly ResponseText for the response, the deadline, the date and the version |
| Protocol.HeaderSkipOverrun | src/connection.h:105-119 | as written, a read ending right after "Host:", or right after the '\r' of a Connection value, moves the cursor one byte past the buffered end |
| Protocol.SkipAsWritten | src/connection.h:105-119 | as written, the cursor after a key or a value steps past the end it found among the buffered bytes, and may land one byte past them |
| Responses.Context.constructor | src/include/htpp/response.h:10-15 | a context starts with an empty buffer, a stream that has not failed, and nothing delivered |
| Responses.Context.DefaultHeaders | src/include/htpp/response.h:13 | the hook appends the default header lines through the same stream, so nothing once it has failed |
| Responses.Context.SendResponse | src/include/htpp/response.h:14 | the hook delivers the buffer as it stands |
| Responses.Context.Send | src/include/htpp/response.h:18-41 | one send appends exactly SendText to the buffer, or nothing when the stream has already failed; an unsized body that prints nothing leaves the stream failed; the buffer is then delivered once |
| Responses.Context.PutHead | src/include/htpp/response.h:20-24 | the status line and the default headers are appended, or nothing on a failed stream |
| Responses.Context.PutBody | src/include/htpp/response.h:25-39 | the content lines and the body are appended, or nothing on a failed stream; an empty unsized body fails the stream |
| Responses.Context.Put | src/include/htpp/response.h:21-38 | one insertion appends the piece, unless the stream has failed |
| Responses.Context.PutStream | src/include/htpp/response.h:35 | inserting a stream buffer appends its text; an empty one appends nothing and fails the stream |
| Responses.SendStatus | src/include/htpp/response.h:21-23 | the status line starts with "HTTP/1.1 " and ends with " \r\n" |
| Responses.SendText | src/include/htpp/response.h:20-39 | a send's text starts with the status line and the default headers, and ends with the printed body when there is one |
| Responses.SendStartsWithStatus | src/include/htpp/response.h:20-26 | the output starts with "HTTP/1.1 ", the code (its digits read back as the code), the header-line text, " \r\n" and the default headers, before any Content-Type line |
| Responses.SizedFramed | src/include/htpp/response.h:28-30 | for sized content, Content-Length is the stated size and the body follows "\r\n\r\n" |
| Responses.UnsizedFramed | src/include/htpp/response.h:31-35 | for unsized content, Content-Length is the exact length of the printed body, which follows the blank line |
| Responses.NoContentClosesBlock | src/include/htpp/response.h:37-38 | without content the block closes with a single "\r\n" after the defaults, with no Content-Type or Content-Length |
| Routing.Registered | src/server.cpp:26-30 | registration keeps the existing routes and adds every new endpoint |
| Routing.LastRegistrationWins | src/server.cpp:27-28 | the last entry for an endpoint decides its handler |
| Routing.UnnamedRouteKept | src/server.cpp:26-30 | a route no new entry names keeps its handler |
| Routing.LastIndexOf | src/server.cpp:63 | the last '.' in the url is found, or the url has none |
| Routing.ContainsDotDot | src/server.cpp:54 | a url is refused if and only if it has ".." somewhere |
| Routing.StaticType | src/server.cpp:63-67 | a url without '.' is octet-stream; otherwise the type comes from the suffix at its last '.' |
| Routing.StaticTarget | src/server.cpp:58-68 | a directory resolves to its index.html (below it) as text/html; any other path resolves to itself, typed by the url's last '.' |
| Routing.Join | src/server.cpp:56 | joining an absolute rest gives the rest alone; joining a relative rest stays below the base |
| Routing.Relative | src/server.cpp:56 | corrected (see Findings): the rest of a static url, made relative, never starts with '/' |
| Routing.RouteAnswer | src/server.cpp:75-79 | a route miss gives 404 "404 Not Found"; a hit gives the handler's own answer for the query text |
| Routing.StaticPath | src/server.cpp:56 | corrected (see Findings): the lookup path always starts with the static root |
| Routing.StaticTargetBelowRoot | src/server.cpp:56-68 | corrected (see Findings): the file a static request resolves to, including a directory's index.html, lies below the static root |
| Routing.FireHandlerIntended | src/server.cpp:52-80 | corrected (see Findings): with no static prefix configured, or a url outside it, the answer is the route lookup's |
| Routing.ServedFilesBelowRoot | src/server.cpp:52-80 | corrected (see Findings): every result of the intended dispatch is the route answer, 404, or the contents of a present file below the static root |
| Routing.Exchange | src/server.cpp:95-98 | a successful exchange ends at most one byte past the window, since the final line end is not awaited |
| Routing.ExchangeDeadline | src/server.cpp:95-98 | the deadline an exchange leaves: the initial one when the request line fails, the headers' one when it succeeds, and otherwise the one the header scan held when it failed, whose fault is the exhausted wait at that deadline |
| Routing.ReadRequest | src/server.cpp:96-98 | one read, the request line and the header block give the request and deadline Exchange gives, or its fault; either way the deadline is ExchangeDeadline's |
| Routing.Accept | src/server.cpp:95-98 | each cycle starts from a fresh arena, so bytes the last request left are dropped, and then reads as Exchange says and leaves ExchangeDeadline's deadline |
| Routing.Server.constructor | src/include/htpp/lib.h:31-40 | a server starts with no routes and no static directory |
| Routing.Server.SetRoutes | src/server.cpp:26-30 | the route table becomes Registered of the old table and the entries |
| Routing.Server.StaticFiles | src/server.cpp:37-41 | the static prefix and root become the given ones |
| Routing.Server.FireHandler | src/server.cpp:52-80 | as written: a url outside the static prefix gets the route lookup's answer; any other answer than that and 404 is a 200 with content for a url under the prefix without ".." |
| Routing.Server.Answer | src/server.cpp:101-107 | a read request gets the as-written dispatch's result; a failed cycle gets one 500 without content, unless its wait never ends |
| Routing.Server.Reply | src/server.cpp:101-107 | the transport receives exactly the response text of Answer, or nothing |
| Routing.Server.Cycle | src/server.cpp:94-107 | one cycle reads as Exchange says, writes exactly Answer's response with the connection lines of ExchangeDeadline's deadline (so a failure after "Connection: close" answers with close), and continues if and only if the request was read and the deadline lies after now |
| Routing.Server.DotDotNotFound | src/server.cpp:53-55 | a url under the static prefix (every url while none is configured) that contains ".." gives 404 with "404 Not Found" |
| Routing.Server.AbsoluteRestEscapesRoot | src/server.cpp:53-72 | as written, a url whose rest after the static prefix starts with '/' is served from that absolute path, outside a relative static root; a fresh server serves GET /etc/passwd from /etc/passwd |
| Routing.Server.ServesPresentFile | src/server.cpp:56-72 | a present file that is not a directory, at the static root joined with the url's rest, is answered 200 with that file's contents, typed by the url's suffix from its last '.' |
| Routing.Server.DirectoryServesIndex | src/server.cpp:56-61 | a directory at the static root joined with the url's rest is answered with its index.html as text/html |
| Routing.Server.MissingFileFallsThrough | src/server.cpp:56-75 | a static path that does not exist falls through to the route lookup |
| Json.Encode | src/include/htpp/json.h:49-115 | the encoding is never empty; it starts with a sign or digit exactly for numbers, and never with ']', '}' or ',' |
| Json.PairsSnoc | src/include/htpp/json.h:66-96 | one more field adds ',' and its "name":value pair at the end |
| Json.ElementsSnoc | src/include/htpp/json.h:109-112 | one more element adds ',' and its encoding at the end |
| Json.SerializeField | src/include/htpp/json.h:49-58 | a field appends its encoding: digits, a quoted string, or the nested serialisation |
| Json.SerializePair | src/include/htpp/json.h:66 | a named field appends '"', the name, "\":" and the field's encoding |
| Json.Serialize | src/include/htpp/json.h:60-115 | a record or range appends its encoding |
| Json.SerializeRecord | src/include/htpp/json.h:60-100 | a record appends '{', its pairs in name order joined by ',', and '}' |
| Json.AppendPair | src/include/htpp/json.h:66-96 | each pair of the record extends the written pairs by one |
| Json.SerializeRange | src/include/htpp/json.h:102-115 | a range appends '[', its elements joined by ',', and ']' |
| Json.AppendElement | src/include/htpp/json.h:107-112 | each pass of the element loop extends the written elements by one |
| Json.NumberAt | src/include/htpp/json.h:51-52 | an integral field's text reads back as that number |
| Json.TextAt | src/include/htpp/json.h:53-54 | a quoted string without '"' reads back as that string |
| Json.KeyAt | src/include/htpp/json.h:66 | a pair's name reads back up to its closing '"', followed by ':' |
| Json.MemberAt | src/include/htpp/json.h:66 | a "name":value pair reads back as that member |
| Json.RangeAt | src/include/htpp/json.h:102-115 | an encoded range reads back as that range |
| Json.RecordAt | src/include/htpp/json.h:60-100 | an encoded record of at most six fields reads back as that record |
| Json.ParseItemsEncoded | src/include/htpp/json.h:107-113 | the joined elements read back in order |
| Json.ParseFieldsEncoded | src/include/htpp/json.h:66-96 | the joined pairs read back in order |
| Json.ParseEncoded | src/include/htpp/json.h:49-58 | every encoded field reads back as itself |
| Json.RoundTrip | src/include/htpp/json.h:49-115 | decoding the encoding of any value whose strings and names have no '"' gives that value back |
| Json.RecordArityRule | src/include/htpp/json.h:62-99 | a record prints "{}" if and only if it has no fields or more than six |
| Json.EmptyRange | src/include/htpp/json.h:104-114 | a range prints "[]" if and only if it is empty |
| Json.UnescapedQuoteAmbiguous | src/include/htpp/json.h:53-54 | strings are not escaped, so two different ranges print the same text |
| Json.JsonTypeLine | src/include/htpp/json.h:127 | a JSON response announces "Content-Type: application/json" |
| Json.FromResponseReadsBack | src/include/htpp/json.h:120-128 | a JSON response is typed application/json, its Content-Length is the encoding's length, it ends with the encoding, and the body decodes back to the value |
| Json.FromBody | src/include/htpp/json.h:120-128 | a json::From body is unsized and typed application/json, and reads back as the value |
| Json.Sink.Put | src/include/htpp/json.h:49-115 | one insertion appends the piece to the stream |

## Left out

- Transport, TLS and socket wrappers are not modelled. The transport is a list of delivered chunks with an open flag. Arrival times are not modelled: the chunks are all a client ever sends.
- The asio timer poll is not modelled. An idle wait under a finite deadline ends as Timeout, and under the close sentinel as Hang, a fault the cycle never answers.
- A read into a full arena returns zero bytes, and the source's wait loops would then spin forever. The model ends such a wait with the fault ArenaFull, which the cycle also leaves unanswered.
- `std::time`, `gmtime_r` and `HTPP_VERSION` are not modelled: `now`, the broken-down date and the version text are parameters. One cycle reads the clock once.
- File system access in `fire_handler` is not modelled. Directory and existence queries and file contents are functions in a `FileSystem` parameter. Routing.Join follows `std::filesystem::path`'s `/`: an absolute right side replaces the base, and otherwise one '/' is inserted between the two; normalisation is not modelled.
- Handlers are not called. A handler is an opaque value, and calling it is a parameter function.
- `OkResponse` is not modelled. The code and header-line text of a `Context::send` response are fields of the response value.
- Middleware hooks, `init`, `close`, the acceptor, `co_spawn`, the thread pool and the destructor are not modelled; they are I/O or concurrency.
- The server loop is not modelled: Routing.Server.Cycle is one pass, and its result says whether the loop continues.
- Partial writes are not modelled. A write sends the whole text.
- Json.Encode does not model floating-point, bool or char fields. Only integral, string, record and range fields are modelled.
- The compile-time `StringLiteral`/`key_name` machinery is not modelled. A record is a sequence of (name, value) fields in name order.
- Json.RoundTrip: strings and names holding '"' are excluded. Without escaping their encodings are ambiguous, as Json.UnescapedQuoteAmbiguous shows.
- Protocol.HttpProtocol.WriteResponse: `write_response` calls an unqualified `to_str(ContentType)`, and two overloads are in view. The model uses the full table of `src/contenttype.cpp`; the two agree wherever the local one is defined, as Utilities.LocalMimeName states.
- Responses.Context.Send: the two hooks are modelled by what they do to the buffer. The default headers are a fixed text, and delivery records the buffer. The buffer is never cleared, as in the source.
- Utilities.Weekday and Utilities.Month are defined only on their index ranges, as the switches are; out-of-range indices reach `std::unreachable` in the source.
- ContentTypes.MimeName: the "type/subtype" shape of the names is not stated over the whole table; ContentTypes.MimeNamesNonEmpty states only that every name is non-empty. Individual names are stated where ContentTypes.UndottedIsOctetStream and ContentTypes.TableOddities mention them.
- Wire.HeaderLine, Wire.HeaderValue, Wire.HeaderLineAt, Protocol.HttpProtocol.ReceiveHeaderValue and Protocol.HttpProtocol.ReceiveKeyed: the skips at `src/connection.h:109` and `:119` (and `src/connection.cpp:68` and `:78`) are modelled in their corrected, waiting form. As written they step over bytes that may not have arrived yet. Only Protocol.SkipAsWritten and Protocol.HeaderSkipOverrun model that step as written. The skip that ends the header block (`src/connection.h:129`) is modelled as written, without waiting. The members built on these steps use the waiting form as well: Wire.HeaderField, Wire.Headers, Wire.HeadersDeadline, Protocol.HttpProtocol.ReceiveHeader, Protocol.HttpProtocol.ReceiveField, Protocol.HttpProtocol.ReceiveHeaders, Routing.Exchange, Routing.ExchangeDeadline, Routing.ReadRequest, Routing.Accept and Routing.Server.Cycle.
- Json.Value admits a range nested in a record or in another range. In the source, the range overload of `serialize` is declared after `serialize_field` and the record overload that call it, so such a nesting most likely does not compile. The model encodes it like any top-level range.
- `std::hash<string_view>` is not modelled. It is a parameter function of Http.EndpointHash.

## Findings

| source | as written | input that shows it | evidently intended | confidence | as-written member | corrected member |
|---|---|---|---|---|---|---|
| src/connection.h:105-119 | after finding a key's end (`:119`) or a value's end (`:109`), the header loop steps over two bytes (one for '\n') without waiting for them. The cursor can then pass the fill end by one byte, and the next search starts outside the buffered bytes | a first read that ends right after "Host:", or right after the '\r' of "Connection: close\r" | wait until the bytes have arrived before stepping over them, keeping `it <= end` | high, not executed | Protocol.HeaderSkipOverrun | Protocol.HttpProtocol.SkipBuffered |
| src/server.cpp:53-72 | the rest of a static url after its prefix is joined to the static root as it is. A rest starting with '/' replaces the root. With no static directory configured, every url counts as static. The engine's dispatch, Routing.Server.FireHandler, is this one | a fresh server, with no static prefix, and GET /etc/passwd: it is served from /etc/passwd | serve only files below the static root, and look up static files only when a static prefix is set | high, not executed | Routing.Server.AbsoluteRestEscapesRoot | Routing.StaticTargetBelowRoot |
| src/connection.h:90-94 | `find(' ')` is called without `co_await`, so the lazy awaitable never runs. The query is empty and the version check starts right after '?'. The engine's parser, Wire.RequestTarget, is this one | "GET /a?x=1 HTTP/1.1\r\n", which throws "Wrong HTTP version" | the query runs to the next ' ', and the version check follows it | high, not executed | Wire.QueryTargetAsWritten | Wire.QueryTarget |
