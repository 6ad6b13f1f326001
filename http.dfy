/** The value types of the server's public header: methods, media types,
    content, responses, parsed requests and route endpoints. */
module Http {
  import opened Outcomes

  /** The request methods, in declaration order. */
  datatype RequestType = GET | HEAD | POST | PUT | DELETE | CONNECT | OPTIONS | TRACE | PATCH

  /** The media types the server can announce, in declaration order. */
  datatype ContentType =
    | AudioAac | ApplicationXAbiWord | ApplicationXFreeArc | ImageAvif | VideoXMsVideo
    | ApplicationVndAmazonEbook | ImageBmp | ApplicationXBzip | ApplicationXBzip2 | ApplicationXCdf
    | ApplicationXCsh | TextCsv | ApplicationMsWord | ApplicationVndOpenXMLWord | ApplicationVndMsFont
    | ApplicationEPub | ApplicationGZip | ImageGif | ImageVndMicrosoftIcon | TextCalendar
    | ApplicationJavaArchive | ApplicationLdJson | AudioMidi | ImageJpeg | AudioMpeg
    | VideoMp4 | VideoMpeg | ApplicationBndAppleInstaller | ApplicationVndOasisOpenPresentation
    | ApplicationVndOasisOpenSpreadsheet | ApplicationVndOasisOpenText | AudioOgg | VideoOgg
    | ApplicationOgg | FontOft | AudioOpus | ImagePng | ApplicationPdf | ApplicationXHttpdPhp
    | ApplicationVndMsPowerpoint | ApplicationVndOpenXMLPresentation | ApplicationVndRar
    | ApplicationRTF | ApplicationXSh | ImageSvg | ApplicationXTar | ImageTiff | VideoMp2t
    | ApplicationVndVisio | AudioWav | AudioWebm | VideoWebm | ImageWebp | FontWoff | FontWoff2
    | ApplicationXHtml | ApplicationVndMsExcel | ApplicationVndOpenXMLSpreadsheet | ApplicationXml
    | ApplicationVndMozillaXul | ApplicationZip | Application7Zip | TextPlain | TextHtml | TextCss
    | TextJavascript | ApplicationJson
    | ApplicationOctetStream // the default

  /** A body together with its media type. */
  datatype Content = Content(contentType: ContentType, data: seq<char>)

  /** A status code and an optional body. */
  datatype Response = Response(code: int, content: Option<Content>)

  /** A parsed request line: method, path and query text. */
  datatype Request = Request(kind: RequestType, url: seq<char>, param: seq<char>)

  /** A route key: method and exact path. */
  datatype Endpoint = Endpoint(kind: RequestType, address: seq<char>)

  /** Content built from a body alone is HTML. */
  function HtmlContent(data: seq<char>): (c: Content)
    ensures c.contentType == TextHtml && c.data == data
  {
    Content(TextHtml, data)
  }

  /** A response that carries only a status code. */
  function CodeResponse(code: int): (r: Response)
    ensures r.code == code && r.content.None?
  {
    Response(code, None)
  }

  /** A response built from content alone succeeds with 200. */
  function ContentResponse(c: Content): (r: Response)
    ensures r.code == 200 && r.content == Some(c)
  {
    Response(200, Some(c))
  }

  /** The method's position in the enumeration (its underlying value). */
  function Ordinal(t: RequestType): (n: nat)
    ensures n < 9
  {
    match t
    case GET => 0
    case HEAD => 1
    case POST => 2
    case PUT => 3
    case DELETE => 4
    case CONNECT => 5
    case OPTIONS => 6
    case TRACE => 7
    case PATCH => 8
  }

  lemma OrdinalInjective(a: RequestType, b: RequestType)
    ensures Ordinal(a) == Ordinal(b) ==> a == b
  {
  }

  /** The method token as it is spelled on the wire. */
  function Keyword(t: RequestType): (s: seq<char>)
    ensures 3 <= |s| <= 7
    ensures forall i :: 0 <= i < |s| ==> 'A' <= s[i] <= 'Z'
  {
    match t
    case GET => "GET"
    case HEAD => "HEAD"
    case POST => "POST"
    case PUT => "PUT"
    case DELETE => "DELETE"
    case CONNECT => "CONNECT"
    case OPTIONS => "OPTIONS"
    case TRACE => "TRACE"
    case PATCH => "PATCH"
  }

  /** The printable name of a method; PATCH prints as "OTHER". */
  function MethodName(t: RequestType): (s: seq<char>)
    ensures t != PATCH ==> s == Keyword(t)
    ensures t == PATCH ==> s == "OTHER"
  {
    match t
    case GET => "GET"
    case PUT => "PUT"
    case POST => "POST"
    case DELETE => "DELETE"
    case HEAD => "HEAD"
    case OPTIONS => "OPTIONS"
    case TRACE => "TRACE"
    case CONNECT => "CONNECT"
    case PATCH => "OTHER"
  }

  /** Distinct methods print distinct names, so the name identifies the method. */
  lemma MethodNameInjective(a: RequestType, b: RequestType)
    ensures MethodName(a) == MethodName(b) ==> a == b
  {
  }

  /** Lexicographic order on character strings, a proper prefix first. */
  predicate LexLess(a: seq<char>, b: seq<char>)
  {
    if a == [] then b != []
    else if b == [] then false
    else a[0] < b[0] || (a[0] == b[0] && LexLess(a[1..], b[1..]))
  }

  lemma {:induction false} LexTrichotomy(a: seq<char>, b: seq<char>)
    ensures (LexLess(a, b) || a == b || LexLess(b, a))
    ensures !(LexLess(a, b) && LexLess(b, a))
    ensures !(LexLess(a, b) && a == b)
  {
    if a != [] && b != [] {
      LexTrichotomy(a[1..], b[1..]);
      if a[0] == b[0] && a[1..] == b[1..] {
        assert a == [a[0]] + a[1..] && b == [b[0]] + b[1..];
      }
    }
  }

  /** The defaulted three-way comparison: method first, then address. */
  predicate EndpointLess(a: Endpoint, b: Endpoint)
  {
    Ordinal(a.kind) < Ordinal(b.kind)
    || (a.kind == b.kind && LexLess(a.address, b.address))
  }

  /** The endpoint order is a strict total order that agrees with equality. */
  lemma EndpointTrichotomy(a: Endpoint, b: Endpoint)
    ensures EndpointLess(a, b) || a == b || EndpointLess(b, a)
    ensures !(EndpointLess(a, b) && EndpointLess(b, a))
    ensures !EndpointLess(a, a)
  {
    LexTrichotomy(a.address, b.address);
    LexTrichotomy(a.address, a.address);
    OrdinalInjective(a.kind, b.kind);
  }

  const SizeModulus: int := 0x1_0000_0000_0000_0000

  /** The endpoint hash: the address's string hash plus the method's
      underlying value, wrapping like a 64-bit size_t. */
  function EndpointHash(e: Endpoint, stringHash: seq<char> -> nat): (h: nat)
    ensures h < SizeModulus
  {
    (stringHash(e.address) + Ordinal(e.kind)) % SizeModulus
  }

  /** Equal endpoints hash equally, and two methods on one address never
      collide: the wrap-around cannot make two small offsets meet. */
  lemma EndpointHashSeparatesMethods(a: seq<char>, s: RequestType, t: RequestType, stringHash: seq<char> -> nat)
    requires stringHash(a) < SizeModulus
    ensures EndpointHash(Endpoint(s, a), stringHash) == EndpointHash(Endpoint(t, a), stringHash) <==> s == t
  {
    var h := stringHash(a);
    var x, y := h + Ordinal(s), h + Ordinal(t);
    assert x % SizeModulus == if x < SizeModulus then x else x - SizeModulus;
    assert y % SizeModulus == if y < SizeModulus then y else y - SizeModulus;
    OrdinalInjective(s, t);
  }
}
